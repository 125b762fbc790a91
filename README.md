# RePathDB and AFIRdb, modelled in Dafny

RePathDB records chemical reaction networks in a graph database. The nodes are:

- Brutto formulas;
- Molecules, keyed by their CGRdb record;
- Complexes, which are sets of molecules that react together;
- equilibrium states (ES) and transition states (TS), which are computed geometries with an energy;
- Reactions between a reactant and a product complex.

Each insertion finds or creates the nodes it needs and links them. Relationships carry atom mappings stored as JSON, and barrier energies. A best-first search enumerates reaction paths between two complexes or two molecules. AFIRdb is the older sibling package. It stores the same kinds of nodes without deduplicating states. It reads the reaction-path logs of AFIR computations.

This project models the following, module by module.

- `Base`: the exceptions the code raises, and the `Option` and `Result` wrappers.
- `Text`: the parts of Python's `str` the code relies on: `split()`, `startswith`, `str(int)` and `int(str)`.
- `Formula`: the Brutto formula, written as `sorted(Counter(symbols).items())` rendered symbol by symbol.
- `Mappings`: atom mappings and their JSON form, reading them back, and AFIRdb's composition of a TS mapping with a stored complex mapping.
- `GraphDb`: the database.
  - A `Graph` value holds the node ids, labels, unique index, `energy` properties and eight relationship types, each kept in creation order.
  - The class `Db` holds the same fields as mutable state.
  - It also has `save()`, `connect` (a merge on the two nodes and the relationship's properties), `is_connected`, and the shared `Brutto` and `Molecule` constructors.
- `RePathStore`: each RePathDB constructor as a pure function from a database to the database after it, plus the outcome. Covered are `EquilibriumState`, `TransitionState`, `Complex` and `Reaction`. Partial writes before an exception are kept, as neomodel keeps them.
- `RePathDb`: the same insertions as methods that update a `Db` step by step. Each method is proved to end in the state its `RePathStore` function describes.
- `AfirStore` and `AfirDb`: the same pair for AFIRdb's `Complex`, `EquilibriumState`, `TransitionState` and `Reaction`.
- `PathSearch`: `search_path`, `has_path` and `get_effective_paths` for molecules and complexes, as imperative loops over a heap kept as a sequence. The model is proved to:
  - yield only simple paths into the targets;
  - yield them in non-decreasing length;
  - never miss a direct reaction into a target;
  - yield at least one path whenever a path within the length cap exists;
  - terminate.
- `BondView`: `get_3d`, the 3D view payload of a condensed reaction graph. Both UI packages hold identical copies.
- `AfirParser`: `log_parser` and `pt_parser`, which read a reaction-path log into a forward and a backward reaction sharing the highest structure as TS.
- `AfirPopulate`: `get_blocks`, `get_ts` and `get_eq`, which cut a log into '#'-headed blocks and read each block into a dictionary.

The chemistry libraries (CGRtools, CGRdb) are parameters of the model. The inputs below carry the answers they give:

- `str(structure)`;
- `split()` into components;
- `get_mapping`;
- the CGRdb ids;
- the rounded geometry signature;
- `float()` and `int()` on text.

### Where the model follows the code rather than the documented intent

- **Duplicate states.** A duplicate ES or TS is refused when the stored energy and the new one are within 0.000001 of each other. It is not refused when they differ. The code tests `-.000001 < self.energy - energy < .000001` at RePathDB/graph.py:362 and 496. `RePathStore.PutConformer` and `RePathStore.ConformerTwice` pin this.
- **Barriers after a lower TS energy.** When a reaction is met again with a lower TS energy, the new barriers are assigned to relationship objects (lines 414-415) but never saved. The stored C2R and R2C barriers therefore stay as they were (`RePathStore.ReactionStaleBarriers`). A lower complex energy recomputes no barrier either (line 224).
- **Barrier assignment with unlinked complexes.** If the reactant or product complex is not linked to the reaction, that assignment is an AttributeError. It is raised after the new energy and the TS link were written.
- **The `limit` argument.** `limit` of `get_effective_paths` is the maximum path length handed to `search_path`, not a number of results.
  - `Complex.get_effective_paths` rejects only `limit == 0`, and returns up to 31 paths, because it returns after the path with index 30.
  - `Molecule.get_effective_paths` rejects `limit <= 0` and returns up to 30.

## Model

| member | source | states |
|---|---|---|
| Text.Tokens | AFIRdb/parser.py:65 | every token `split()` returns is non-empty and free of separators |
| Text.TokensAroundSpace | AFIRdb/parser.py:65 | a separator splits the tokens into those of the text before it followed by those after it |
| Text.TokensOfUnsplit | AFIRdb/parser.py:65 | `split()` reads back exactly the tokens that were joined with blanks |
| Text.TokensTrailingSpace | AFIRdb/parser.py:65 | a line's trailing newline does not change its tokens |
| Text.NatToString | AFIRdb/populate.py:62 | `str(n)` of a natural number is a run of decimal digits |
| Text.NatToStringRoundTrip | AFIRdb/populate.py:62 | the digits of `str(n)` have the value `n` |
| Text.IntToString | AFIRdb/graph.py:269 | `str(i)` is never empty |
| Text.IntToStringRoundTrip | RePathDB/graph.py:67 | `int(str(i)) == i` for every integer |
| Text.IntToStringInjective | AFIRdb/graph.py:269 | different atom numbers get different JSON keys |
| Formula.BelowIrreflexive | RePathDB/graph.py:90 | the string order `sorted` uses is irreflexive |
| Formula.BelowTransitive | RePathDB/graph.py:90 | the string order is transitive |
| Formula.BelowTotal | RePathDB/graph.py:90 | any two different strings are ordered one way or the other |
| Formula.BelowAsymmetric | RePathDB/graph.py:90 | the string order is asymmetric |
| Formula.Insert | RePathDB/graph.py:90 | inserting a symbol keeps the list strictly ascending and adds exactly that symbol |
| Formula.Symbols | RePathDB/graph.py:89-90 | the keys of the sorted Counter: strictly ascending, and exactly the symbols that occur |
| Formula.Entries | RePathDB/graph.py:89-90 | one item per distinct symbol, in ascending order, each with the symbol's multiplicity (at least 1) |
| Formula.AscendingUnique | RePathDB/graph.py:90 | a set of symbols has only one strictly ascending order |
| Formula.FormulaOfComposition | RePathDB/graph.py:89-91 | the formula depends only on the multiset of atoms, not on their order |
| Formula.RenderInjective | RePathDB/graph.py:89 | different item lists with digit-free symbols render to different strings |
| Formula.EntriesDetermineComposition | RePathDB/graph.py:90 | the sorted Counter items give back the multiset of symbols |
| Formula.FormulaIffComposition | RePathDB/graph.py:89-91 | two structures share a Brutto formula exactly when they have the same composition |
| Mappings.Identity | AFIRdb/graph.py:156 | `{n: n for n in structure}`: its keys are exactly the atoms and each maps to itself |
| Mappings.ToJson | RePathDB/graph.py:63 | each atom `k` is stored under the key `str(k)` with its image, and there are no other keys |
| Mappings.Decode | RePathDB/graph.py:65-67 | reading succeeds exactly when every key is a canonical decimal numeral, as `str(int)` writes them; each value then sits under `int(key)`; otherwise ValueError |
| Mappings.ToJsonKeys | RePathDB/graph.py:65-67 | every key of a stored mapping is readable by `int` |
| Mappings.DecodeToJson | RePathDB/graph.py:65-67 | round trip: reading a stored mapping gives back the mapping that was stored |
| Mappings.Compose | AFIRdb/graph.py:269 | the only failure of the composition is a KeyError |
| Mappings.ComposeStored | AFIRdb/graph.py:269 | composing with a stored `m` succeeds exactly when every image of `t2c` is a key of `m`; the result is then `m ∘ t2c` on the keys of `t2c` |
| GraphDb.Connect | RePathDB/graph.py:238 | `connect` merges on the two nodes together with the properties: a relationship with the same ends and properties is found and nothing is written; otherwise the new one is appended beside any other relationship joining the nodes; the nodes end up joined and every relationship already there keeps its ends |
| GraphDb.Merge | RePathDB/graph.py:236-238 | `connect` of each relationship in turn: the old relationships stay as a prefix, every relationship connected is present, and every one added is one of them that was not there |
| GraphDb.MergeFresh | RePathDB/graph.py:236-238 | relationships that differ from one another and from those present are all appended, in order |
| GraphDb.MergeKnown | RePathDB/graph.py:236-238 | connecting relationships that are all present writes nothing |
| GraphDb.Once | RePathDB/graph.py:430-433 | the `is_connected`-guarded `connect`: the new relationship is appended exactly when the two nodes were not joined; they end up joined |
| GraphDb.EndsKeptConnected | RePathDB/graph.py:238 | nodes once joined stay joined through later `connect`s |
| GraphDb.Link | RePathDB/graph.py:238 | `connect` on the database: the relationships of its type become `Connect` of the old ones; nodes, index, energies and the other types are unchanged, and the database stays well formed |
| GraphDb.LinkOnce | RePathDB/graph.py:231-232 | `if not is_connected: connect` adds the relationship at the end when the nodes are not joined, and changes nothing otherwise |
| GraphDb.Unconnected | AFIRdb/graph.py:198 | a node id not yet handed out is joined to nothing |
| GraphDb.Saved | RePathDB/graph.py:218 | `save()` gives the node the next id and its label; it enters the index exactly when its property is unique-indexed; nothing else changes |
| GraphDb.SavedWithEnergy | RePathDB/graph.py:356-358 | as `Saved`, and the new node carries the given energy; no other energy changes |
| GraphDb.PutBrutto | RePathDB/graph.py:85-93 | a structure with keyword arguments is a ValueError and writes nothing; otherwise the result is the node indexed under the formula, created only if missing |
| GraphDb.PutMolecule | RePathDB/graph.py:109-124 | the node of the component's CGRdb id, created only if missing; a new CGRdb record whose id a node already carries is a uniqueness violation that writes nothing |
| GraphDb.Db.Save | RePathDB/graph.py:218 | `save()` in place: the new state is `Saved` of the old |
| GraphDb.Db.SaveWithEnergy | RePathDB/graph.py:356-358 | in place: the new state is `SavedWithEnergy` of the old |
| GraphDb.Db.SetEnergy | RePathDB/graph.py:228-229 | only the energy of the one node changes |
| GraphDb.Db.Join | RePathDB/graph.py:238 | `connect` in place: the new state is `Link` of the old |
| GraphDb.Db.JoinOnce | RePathDB/graph.py:231-232 | in place: the new state is `LinkOnce` of the old |
| GraphDb.Db.IsConnected | RePathDB/graph.py:226 | answers whether some relationship of the type joins the two nodes |
| GraphDb.Joined | RePathDB/graph.py:226 | the scan answers true exactly when some relationship joins the two nodes |
| GraphDb.AddBrutto | RePathDB/graph.py:85-93 | `Brutto(structure)` in place ends in the state and outcome of `PutBrutto` |
| GraphDb.AddMolecule | RePathDB/graph.py:109-124 | `Molecule(structure)` in place ends in the state and outcome of `PutMolecule` |
| RePathStore.PutConformer | RePathDB/graph.py:348-365 | a new geometry is saved with its energy; a stored one is returned unchanged, unless the energies are close, which is a ValueError; no relationship changes |
| RePathStore.ConformerTwice | RePathDB/graph.py:362-363 | saving the same state twice with the same energy is refused the second time |
| RePathStore.LinkPart | RePathDB/graph.py:236-238 | the component's Molecule is found or created, and its M2C relationship into the complex, carrying the component's mapping, is connected (appended unless that very relationship is there); a clashing new CGRdb id is a uniqueness violation that writes nothing |
| RePathStore.PutParts | RePathDB/graph.py:236-238 | after the component loop, every component's Molecule is joined to the complex, and the M2C relationships are the old ones with each component's relationship, carrying its mapping, connected in the order of `split()`; the only error is a uniqueness violation |
| RePathStore.PartsNext | RePathDB/graph.py:236-238 | one more component after a successful prefix is exactly one more `LinkPart` |
| RePathStore.PartsStop | RePathDB/graph.py:236-238 | the loop stops at the first failing component: later components write nothing |
| RePathStore.PartsKeys | RePathDB/graph.py:236-238 | only the components' Molecules enter the index, and all of them do when the loop succeeds |
| RePathStore.PartsOutcome | RePathDB/graph.py:236-238 | the loop fails exactly when some component clashes |
| RePathStore.PartsFresh | RePathDB/graph.py:236-238 | components that are different molecules, or one molecule under different mappings, each add their own M2C relationship, in order, to a complex no relationship reaches yet |
| RePathStore.StoredPartsOk | RePathDB/graph.py:236-238 | components that are all molecules already in CGRdb never clash, so the loop succeeds |
| RePathStore.RepeatedMolecule | RePathDB/graph.py:236-238 | two components that are the same stored molecule under different mappings, such as two waters, give two M2C relationships from the one Molecule node, each with its own mapping |
| RePathStore.MergeComplex | RePathDB/graph.py:219-232 | an existing complex takes a lower energy only through an ES not yet linked (otherwise ValueError, nothing written); an unlinked ES is linked with the mapping onto the stored structure; the energy becomes the minimum; the E2C relationships become exactly `Once(e2c, es → complex with the stored mapping)`: the old ones plus that one when the ES was unlinked, unchanged otherwise |
| RePathStore.LinkBrutto | RePathDB/graph.py:234 | the complex or reaction ends up joined from the Brutto node of its formula, which is created only if missing |
| RePathStore.LinkComplex | RePathDB/graph.py:235-240 | each component's M2C relationship, carrying its mapping, is connected to the new complex in the order of `split()`, then its ES with the identity mapping; it fails, with a uniqueness violation, exactly when some component clashes |
| RePathStore.SaveComplex | RePathDB/graph.py:216-218 | the new complex is saved with the geometry's energy and joined from its Brutto node (line 234); component clashes are unchanged |
| RePathStore.NewComplex | RePathDB/graph.py:233-240 | a new complex is indexed at the next id with its energy and its Brutto link; on success each component's M2C relationship is connected in order and exactly one E2C relationship, from its ES with the identity mapping, is appended; it fails exactly when a component clashes |
| RePathStore.PutComplex | RePathDB/graph.py:210-243 | the result is the indexed complex and its indexed ES, joined; the complex energy is the minimum of the stored one and the new one, and only that energy can change; a stored complex gains no M2C relationship and its E2C relationships become exactly `Once(e2c, ES → complex with the stored mapping)`, a new one its components' relationships in order and one identity-mapped E2C relationship; no reaction relationship is touched |
| RePathStore.ComplexComponents | RePathDB/graph.py:233-240 | a new complex with distinct components gains exactly one M2C relationship per component, in the order of `split()`, each carrying that component's mapping |
| RePathStore.ComplexTwice | RePathDB/graph.py:214 | inserting the same complex geometry a second time is refused with a ValueError and writes nothing |
| RePathStore.PutSides | RePathDB/graph.py:393-396 | both complexes and their ESs are in the database, with the energies read off them |
| RePathStore.Prepare | RePathDB/graph.py:391-396 | the TS is indexed first, then both complexes; the first refusal stops the insertion |
| RePathStore.ExistingReaction | RePathDB/graph.py:402-417 | an error occurs exactly when the TS energy is lower and the TS is already linked (ValueError, nothing written) or a complex is unlinked (AttributeError); an unlinked TS is appended with the stored mapping; the energy becomes the minimum; with no lower energy and the TS already linked, nothing is written |
| RePathStore.LinkSides | RePathDB/graph.py:422-427 | the new reaction gains exactly one C2R, one R2C and one T2R relationship, carrying the mappings and the barriers (TS energy less complex energy) |
| RePathStore.SaveReaction | RePathDB/graph.py:418-420 | the new reaction is indexed at the next id with an energy, and no reaction relationship changes yet |
| RePathStore.NewReaction | RePathDB/graph.py:418-427 | the new reaction is indexed, carries an energy, and is joined from its TS |
| RePathStore.NewReactionEnergy | RePathDB/graph.py:399 | a new reaction carries the TS energy and hangs under the Brutto node of the TS formula; no existing energy changes |
| RePathStore.NewReactionBarriers | RePathDB/graph.py:423-424 | a new reaction gains exactly one relationship per complex, carrying its mapping and barrier |
| RePathStore.NewReactionTs | RePathDB/graph.py:427 | a new reaction gains exactly one TS relationship with the identity mapping; ES-to-TS relationships are untouched |
| RePathStore.StateBarriers | RePathDB/graph.py:429-433 | the reactant ES's barrier relationship, then the product ES's, each appended only when its ES is not joined to the TS yet, each carrying the TS energy less its own ES's energy; nothing already there is overwritten; nothing is added exactly when both are joined |
| RePathStore.LinkStates | RePathDB/graph.py:429-433 | the E2T relationships become `StateBarriers` of the old ones: the TS ends up joined from both ESs, each relationship written carrying the TS energy less its own ES's energy; nothing changes when both links exist |
| RePathStore.MergeReaction | RePathDB/graph.py:398-427 | on success the reaction is indexed, carries an energy and is joined from the TS; the only errors are ValueError and AttributeError |
| RePathStore.Finish | RePathDB/graph.py:398-433 | as `MergeReaction`, and the E2T relationships become `StateBarriers` of those before, with the TS energy |
| RePathStore.PutReaction | RePathDB/graph.py:380-435 | on success the result is the indexed reaction, with an energy, joined from the indexed TS, and the E2T relationships are `StateBarriers` of the old ones for the ESs the insertion stored; the errors are ValueError, UniqueViolation or AttributeError |
| RePathStore.FinishEnergy | RePathDB/graph.py:406-410 | once TS and complexes are in, only the reaction's energy can change |
| RePathStore.ReactionRefused | RePathDB/graph.py:392 | a reaction whose TS is stored with the same energy is refused with a ValueError and writes nothing |
| RePathStore.ReactionStaleBarriers | RePathDB/graph.py:414-415 | re-inserting a known reaction leaves the stored C2R and R2C relationships, and their barriers, as they were |
| RePathDb.AddConformer | RePathDB/graph.py:348-365 | in place; ends in the state and outcome of `PutConformer` |
| RePathDb.AddPart | RePathDB/graph.py:236-238 | in place; ends in the state and outcome of `LinkPart` |
| RePathDb.AddParts | RePathDB/graph.py:236-238 | the component loop in place; ends in the state and outcome of `PutParts` |
| RePathDb.MergeComplexAt | RePathDB/graph.py:219-232 | in place; ends in the state and outcome of `MergeComplex` |
| RePathDb.AddBruttoLink | RePathDB/graph.py:234 | in place; ends in the state of `LinkBrutto` |
| RePathDb.SaveNewComplex | RePathDB/graph.py:216-218 | in place; ends in the state of `SaveComplex` and returns the new id |
| RePathDb.LinkNewComplex | RePathDB/graph.py:235-240 | in place; ends in the state and outcome of `LinkComplex` |
| RePathDb.AddNewComplex | RePathDB/graph.py:233-240 | in place; ends in the state and outcome of `NewComplex` |
| RePathDb.AddComplex | RePathDB/graph.py:210-243 | `Complex(structure)` in place; ends in the state and outcome of `PutComplex` |
| RePathDb.AddSides | RePathDB/graph.py:393-396 | in place; ends in the state and outcome of `PutSides` |
| RePathDb.PrepareReaction | RePathDB/graph.py:391-396 | in place; ends in the state and outcome of `Prepare` |
| RePathDb.MergeExistingReaction | RePathDB/graph.py:402-417 | in place; ends in the state and outcome of `ExistingReaction` |
| RePathDb.LowerReactionAt | RePathDB/graph.py:406-415 | in place; the lower-energy branch writes the energy and the TS link, then fails if a complex is unlinked |
| RePathDb.LinkReactionSides | RePathDB/graph.py:422-427 | in place; ends in the state of `LinkSides` |
| RePathDb.SaveNewReaction | RePathDB/graph.py:418-420 | in place; ends in the state of `SaveReaction` |
| RePathDb.AddNewReaction | RePathDB/graph.py:418-427 | in place; ends in the state of `NewReaction` |
| RePathDb.LinkReactionStates | RePathDB/graph.py:429-433 | in place; ends in the state of `LinkStates` |
| RePathDb.AddReaction | RePathDB/graph.py:380-435 | `Reaction(structure)` in place; ends in the state and outcome of `PutReaction` |
| AfirStore.Fresh | AFIRdb/graph.py:197 | an AFIRdb state carries no unique property, so it is never indexed |
| AfirStore.NewState | AFIRdb/graph.py:192-200 | every ES or TS insertion saves a new node with the structure's energy; the index and the relationships are unchanged |
| AfirStore.StatesNeverShared | AFIRdb/graph.py:196-198 | the same structure saved twice gives two distinct nodes with the same label and energy |
| AfirStore.LinkedState | AFIRdb/graph.py:155-156 | a fresh ES is saved and exactly one E2C relationship carrying the mapping is appended |
| AfirStore.EsGuardPasses | AFIRdb/graph.py:145-146 | the fresh ES is never already joined, so the `is_connected` test always lets the link through |
| AfirStore.ExistingComplex | AFIRdb/graph.py:143-148 | a stored signature returns the stored complex with a fresh ES, joined by one relationship carrying the mapping onto the stored structure; nothing else is written |
| AfirStore.SaveComplex | AFIRdb/graph.py:140-142 | the new complex is indexed at the next id and joined from its Brutto node (line 149); component clashes are unchanged |
| AfirStore.LinkComplex | AFIRdb/graph.py:150-156 | each component's M2C relationship, carrying its mapping, is connected in the order of `split()`, then a fresh ES is joined with the identity mapping; it fails exactly when a component clashes |
| AfirStore.NewComplex | AFIRdb/graph.py:148-156 | a new complex is indexed with its Brutto link, its components' M2C relationships connected in order, and a fresh ES joined by one identity-mapped E2C relationship; it fails exactly when a component clashes |
| AfirStore.PutComplex | AFIRdb/graph.py:138-159 | fails exactly for a new signature with a clashing component; on success the result is the indexed complex and a new ES carrying the energy, joined by exactly one E2C relationship with the mapping onto the stored structure (the identity for a new one); no stored energy or reaction relationship changes |
| AfirStore.ComplexMolecules | AFIRdb/graph.py:138-153 | a stored signature gains no M2C relationship; a new one gets its components' relationships, carrying their mappings, connected in the order of `split()` |
| AfirStore.ComplexComponents | AFIRdb/graph.py:150-153 | a new complex with distinct components gains exactly one M2C relationship per component, in order, each carrying its mapping |
| AfirStore.ComplexAgain | AFIRdb/graph.py:143-147 | a second insertion of the same structure returns the same complex with a different ES, and adds exactly one E2C relationship |
| AfirStore.FindAt | AFIRdb/graph.py:268 | `relationship(rc)` finds the first relationship joining the two nodes, and finds one exactly when they are joined |
| AfirStore.ComposeStoredProperty | AFIRdb/graph.py:268-269 | a stored mapping is composed as `Compose`; a property never set fails with a TypeError unless there is nothing to look up |
| AfirStore.LinkBarriers | AFIRdb/graph.py:274-275 | exactly two E2T relationships are appended, from the reactant and product ESs, each carrying the TS energy less that ES's energy |
| AfirStore.AttachProduct | AFIRdb/graph.py:270-275 | the product complex is inserted; on success exactly two E2T relationships are appended, from the reactant ES and from the product's new ES, each carrying the TS energy less that ES's energy; no T2R, C2R, R2C or B2R relationship changes |
| AfirStore.AttachRest | AFIRdb/graph.py:269-275 | the TS gets one T2R relationship carrying the composed mapping and two barrier relationships, the first from the reactant ES, the second from the product's new ES; the product complex's only failure is a uniqueness violation |
| AfirStore.AttachTs | AFIRdb/graph.py:266-275 | an unlinked reactant complex is an AttributeError that writes nothing; otherwise the stored mapping is composed and its error, if any, is returned, and on success the TS is attached with barriers from the reactant ES and the product's new ES; errors are limited to the four kinds raised |
| AfirStore.TsGuardPasses | AFIRdb/graph.py:264-265 | the fresh TS is never already linked, so every repeat insertion attaches it |
| AfirStore.ExistingReaction | AFIRdb/graph.py:262-275 | a known reaction gains one TS, one T2R and two barrier relationships on success, the barriers starting at the reactant's and then the product's ES saved by this insertion; no C2R, R2C or B2R relationship and no stored energy changes |
| AfirStore.ReactantTs | AFIRdb/graph.py:263-275 | the reactant complex, then the TS attached from its new ES: on success the barriers start at the reactant's and the product's ES saved by this insertion; errors are limited to the four kinds raised |
| AfirStore.AttachComposes | AFIRdb/graph.py:267-269 | through a stored mapping `m`: a KeyError occurs exactly when some atom of `t2c` lands outside `m`; on success the T2R relationship carries `k ↦ m[t2c[k]]` |
| AfirStore.StoredComposition | AFIRdb/graph.py:269 | composing with a stored `m` succeeds exactly when every image lands in `m`, is otherwise a KeyError, and gives `m ∘ t2c` |
| AfirStore.BothComplexes | AFIRdb/graph.py:280-281 | both complexes end up indexed, each with its own new ES, the two ESs distinct |
| AfirStore.LinkNewReaction | AFIRdb/graph.py:276-292 | the new reaction is joined from both complexes with their mappings; a fresh TS is attached with the identity mapping and two barriers, from the reactant's and the product's ES saved by this insertion |
| AfirStore.LinkComplexes | AFIRdb/graph.py:282-283 | the reaction is joined from the reactant complex (C2R) and the product complex (R2C), only by relationships carrying their mappings |
| AfirStore.LinkedTs | AFIRdb/graph.py:286-287 | a fresh TS with its energy, and exactly one T2R relationship carrying the identity mapping |
| AfirStore.TsWithBarriers | AFIRdb/graph.py:286-292 | a fresh TS is attached to the reaction with the identity mapping, then the barrier from the reactant ES and the barrier from the product ES, each carrying the TS energy less that ES's energy |
| AfirStore.LinkSides | AFIRdb/graph.py:282-292 | with both complexes known: the complex links, and the attached TS with its barriers from the reactant's and the product's ES; exactly one new node |
| AfirStore.SidesBarriers | AFIRdb/graph.py:286-292 | the barrier relationships the side links append start at the two ESs of the insertion, the reactant's first |
| AfirStore.SaveReaction | AFIRdb/graph.py:259-261 | the new reaction is indexed at the next id and joined from its Brutto node (line 278); no TS relationship changes |
| AfirStore.NewReaction | AFIRdb/graph.py:276-292 | a new reaction is indexed under the Brutto node of the TS formula; on success it is joined from both complexes and has a fresh TS attached, with barriers from the ESs of both complexes saved by this insertion |
| AfirStore.PutReaction | AFIRdb/graph.py:247-294 | the reaction ends up indexed, keeping a stored id; on success a known reaction gains a TS with barriers, a new one is linked to its complexes and a TS, and either way the two new barriers start at the reactant's and the product's ES saved by this insertion; no stored energy changes |
| AfirDb.AddState | AFIRdb/graph.py:192-200 | in place; ends in the state of `NewState` and returns the new id |
| AfirDb.AddLinkedState | AFIRdb/graph.py:155-156 | in place; ends in the state of `LinkedState` |
| AfirDb.AddExistingComplex | AFIRdb/graph.py:143-148 | in place; ends in the state and outcome of `ExistingComplex` |
| AfirDb.AddComplexLinks | AFIRdb/graph.py:150-156 | in place; ends in the state and outcome of `LinkComplex` |
| AfirDb.AddNewComplex | AFIRdb/graph.py:148-156 | in place; ends in the state and outcome of `NewComplex` |
| AfirDb.AddComplex | AFIRdb/graph.py:138-159 | `Complex(structure)` in place; ends in the state and outcome of `PutComplex` |
| AfirDb.FindRelationship | AFIRdb/graph.py:268 | the scan for the reactant relationship stops at the position `FindAt` specifies |
| AfirDb.FirstMatch | AFIRdb/graph.py:268 | a position preceded by no match, and holding a match or the end, is `FindAt` |
| AfirDb.AddBarriers | AFIRdb/graph.py:274-275 | in place; ends in the state of `LinkBarriers` |
| AfirDb.AddRest | AFIRdb/graph.py:269-275 | in place; ends in the state and outcome of `AttachRest` |
| AfirDb.AddTs | AFIRdb/graph.py:266-275 | in place; ends in the state and outcome of `AttachTs` |
| AfirDb.AddExistingReaction | AFIRdb/graph.py:262-275 | in place; ends in the state and outcome of `ExistingReaction` |
| AfirDb.AddBothComplexes | AFIRdb/graph.py:280-281 | in place; ends in the state and outcome of `BothComplexes` |
| AfirDb.AddComplexesLinks | AFIRdb/graph.py:282-283 | in place; ends in the state of `LinkComplexes` |
| AfirDb.AddLinkedTs | AFIRdb/graph.py:286-287 | in place; ends in the state of `LinkedTs` |
| AfirDb.AddTsWithBarriers | AFIRdb/graph.py:286-292 | in place; ends in the state of `TsWithBarriers` |
| AfirDb.AddNewReactionLinks | AFIRdb/graph.py:276-292 | in place; ends in the state and outcome of `LinkNewReaction` |
| AfirDb.AddReaction | AFIRdb/graph.py:247-294 | `Reaction(structure)` in place; ends in the state and outcome of `PutReaction` |
| PathSearch.Extension | RePathDB/graph.py:289-297 | the copied path extended by a reaction of its last complex and that reaction's product, both with the step's barrier |
| PathSearch.ExtendWalk | RePathDB/graph.py:293-297 | an open path extended into a complex not on it is still a walk from a start |
| PathSearch.Smallest | RePathDB/graph.py:278 | `heappop` takes an entry no other entry precedes in tuple order |
| PathSearch.FoundStep | RePathDB/graph.py:288-292 | a reaction of the last complex into a target makes a path the search may yield |
| PathSearch.QueueStep | RePathDB/graph.py:293-298 | a reaction into an unseen complex, within the length cap, makes an entry fit for the queue |
| PathSearch.ChildrenCover | RePathDB/graph.py:293-298 | every reaction whose product is neither a target nor seen, within the length cap, has its extension pushed |
| PathSearch.ChildrenSound | RePathDB/graph.py:293-298 | every entry pushed is the extension of such a reaction |
| PathSearch.ChildrenLength | RePathDB/graph.py:295-298 | each pushed path is two entries longer than the popped one |
| PathSearch.ChildrenQueued | RePathDB/graph.py:293-298 | the pushed entries are fit for the queue once `new_seen` holds their complexes |
| PathSearch.ChildrenPotential | RePathDB/graph.py:284-298 | the pushed entries weigh at most one child weight per reaction |
| PathSearch.YieldsCover | RePathDB/graph.py:288-292 | every reaction into a target has its extension yielded |
| PathSearch.YieldsSound | RePathDB/graph.py:288-292 | every path yielded is the extension of a reaction into a target |
| PathSearch.YieldsFound | RePathDB/graph.py:288-292 | every yielded path is found and two entries longer than the popped path |
| PathSearch.ExpandReaction | RePathDB/graph.py:285-298 | one reaction: the extension is yielded exactly when the product is a target; otherwise it is pushed with the next counter exactly when the length cap allows and the product is not in `seen`, and the product joins `new_seen` exactly then |
| PathSearch.Expand | RePathDB/graph.py:284-298 | the loop over the reactions pushes exactly `Children` and yields exactly `Yields` of the popped path, and `new_seen` gains exactly the pushed products |
| PathSearch.Expanded | RePathDB/graph.py:284-298 | the pushed entries keep the queue invariant, the yielded paths are found, every reaction into a target is yielded, and the potential grows by at most one child weight per reaction |
| PathSearch.Popped | RePathDB/graph.py:278-282 | after the pop and the `seen` update, the popped path and the remaining queue are consistent with its length |
| PathSearch.Shortest | RePathDB/graph.py:278-282 | `heappop` takes the least entry; `old_len` becomes its length, which never decreases; `seen` absorbs `new_seen` exactly when the length changes; the popped entry and the rest stay consistent |
| PathSearch.Pop | RePathDB/graph.py:277-298 | one loop pass keeps the queue and yield invariants and the frontier (every expanded complex has yielded for its reactions into a target and reached each unseen product one step further), and lowers the queue's potential, so the loop ends |
| PathSearch.PopQueued | RePathDB/graph.py:278-298 | the queue invariant across one pass of the loop, and the potential falls |
| PathSearch.PopYielded | RePathDB/graph.py:284-292 | across one pass the yielded paths stay, the new ones are found and one step longer than the popped path, and every reaction of its complex into a target is yielded |
| PathSearch.FrontierStep | RePathDB/graph.py:277-298 | popping an entry, pushing its children and yielding its paths keeps the frontier, with the popped entry marked expanded |
| PathSearch.ExpandedAlong | RePathDB/graph.py:277-298 | once the queue is empty, along a path the search could yield every complex but the last was expanded by a path no longer than the prefix up to it |
| PathSearch.SearchComplete | RePathDB/graph.py:277-298 | once the queue is empty, a path the search could yield within the cap means some path was yielded |
| PathSearch.Search | RePathDB/graph.py:277-298 | the yielded paths are all found, bounded by `max_len`, and in non-decreasing length; every direct reaction from a start into a target is yielded; no targets means no paths; some path is yielded whenever a found path within the cap exists |
| PathSearch.ComplexSearch | RePathDB/graph.py:262-298 | every path runs from this complex to the target, one reaction per step, visiting no complex twice; a direct reaction into the target is always among them; none when the target is this complex; at least one whenever such a path within the cap exists |
| PathSearch.MoleculeSearch | RePathDB/graph.py:126-160 | paths from this molecule's complexes into the target's complexes, simple, bounded and in non-decreasing length; none when the target's complexes are all this molecule's; at least one whenever such a path within the cap exists |
| PathSearch.HasPath | RePathDB/graph.py:162-165 | true exactly when the target is another molecule and a found path of at most 12 entries (`max_len` 10) exists; a true answer comes with one as witness |
| PathSearch.Weigh | RePathDB/graph.py:250-257 | cost 0 at complexes, the step barrier at reactions, and the total is their sum |
| PathSearch.WeighFirst | RePathDB/graph.py:172-180 | the first `cap` paths are weighed, in order |
| PathSearch.MoleculeEffectivePaths | RePathDB/graph.py:167-181 | ValueError exactly when `limit <= 0`; otherwise the first 30 of the paths the search yields (`paths`), weighed; `paths` is ordered by length, holds every direct reaction from a molecule's complex to a target, the result is empty when every complex of the other molecule is one of this molecule's complexes, and is non-empty whenever some path of length at most `limit + 2` exists |
| PathSearch.ComplexEffectivePaths | RePathDB/graph.py:245-260 | ValueError exactly when `limit == 0`; otherwise up to 31 of the paths the search yields (`paths`), weighed; `paths` is ordered by length, holds every direct reaction from the start to the target, the result is empty when start and target are the same complex, and is non-empty whenever some path within the length bound exists |
| PathSearch.TotalCost | RePathDB/graph.py:253-256 | the total cost of a weighed path is the energy it climbs: each reaction's energy over the complex it leaves, summed |
| BondView.Classify | RePathDB/wui/utilities.py:65-86 | a formed bond grows from 0; a broken one falls to 0; an unchanged one has neither key; a changed one records the larger order as maximum and the smaller under `to` when the order drops and under `from` when it rises |
| BondView.SidesClassify | RePathDB/wui/utilities.py:65-86 | the record gives back both sides of the bond |
| BondView.ClassifyInjective | RePathDB/wui/utilities.py:65-86 | different bond changes never produce the same record |
| BondView.AtomRecords | RePathDB/wui/utilities.py:61-62 | one record per atom with its element and coordinates; an atom without coordinates is a KeyError |
| BondView.Get3d | RePathDB/wui/utilities.py:59-87 | succeeds exactly when every atom has coordinates and every bond end is mapped (otherwise KeyError); the atoms and one record per bond, in order |
| AfirParser.EarliestMax | AFIRdb/parser.py:71 | the first structure of maximal energy, which is what the stable reverse sort puts first |
| AfirParser.EarliestMaxEnergies | AFIRdb/parser.py:71 | the choice depends on the energies only |
| AfirParser.Choose | AFIRdb/parser.py:67-86 | IndexError when nothing was read; ValueError for fewer than three structures or a highest one at either end; otherwise two mirror reactions sharing the highest interior structure as TS, with the ends as equilibria |
| AfirParser.PtParser | AFIRdb/parser.py:39-86 | the loop over the lines yields the result of reading the structures, then choosing |
| AfirParser.LogParser | AFIRdb/parser.py:28-36 | StopIteration on an empty file; ValueError without the header; otherwise `pt_parser` on the remaining lines |
| AfirParser.FoldPlain | AFIRdb/parser.py:50-53 | lines outside a block are ignored |
| AfirParser.FoldBody | AFIRdb/parser.py:53-66 | inside a block, atom lines add their atoms in order, and "Item" lines nothing |
| AfirParser.FoldBlock | AFIRdb/parser.py:49-66 | a well-formed block adds exactly its structure |
| AfirParser.FoldLog | AFIRdb/parser.py:49-66 | a log of well-formed blocks is read into one structure per block, in order |
| AfirParser.ReadsBlocks | AFIRdb/parser.py:46-86 | after an ignored preamble, the structures read are the blocks' own, and the result is decided by them |
| AfirPopulate.CutHash | AFIRdb/populate.py:38-42 | a '#' line closes the block being filled and opens a new one |
| AfirPopulate.CutPlain | AFIRdb/populate.py:42 | any other line joins the block being filled |
| AfirPopulate.CutDone | AFIRdb/populate.py:43-45 | at the end there is one block per '#' line, laid end to end from the first '#' line |
| AfirPopulate.GetBlocks | AFIRdb/populate.py:34-45 | IndexError exactly when some line is empty; otherwise one block per '#' line, each a '#' line followed by lines without '#', together the lines from the first '#' line on |
| AfirPopulate.FindEnergy | AFIRdb/populate.py:54 | the first "Energy" line at or after the start, or none |
| AfirPopulate.AtomsUpTo | AFIRdb/populate.py:58-60 | every line before the bound is an atom line, each read in order and numbered from 1; otherwise ValueError |
| AfirPopulate.AtomSection | AFIRdb/populate.py:53-62 | the atoms, numbered from 1, of the lines between the header and the first "Energy" line, at least one of them; the raw text of those lines; errors only ValueError or IndexError |
| AfirPopulate.SectionBadLine | AFIRdb/populate.py:59 | a malformed line before any "Energy" line is a ValueError |
| AfirPopulate.SectionNoEnergy | AFIRdb/populate.py:62 | a block without "Energy" line leaves no atoms, so `['Atoms'][-1]` is an IndexError |
| AfirPopulate.AtomLoop | AFIRdb/populate.py:53-60 | the loop's outcome is exactly `AtomSection` |
| AfirPopulate.ReadAtoms | AFIRdb/populate.py:53-62 | the atom loop and the read after it give `AtomSection` |
| AfirPopulate.RStrip | AFIRdb/populate.py:69 | `rstrip(c)` removes exactly the trailing copies of `c` |
| AfirPopulate.ReadConnections | AFIRdb/populate.py:65-68 | the backward scan gives `Connections` |
| AfirPopulate.ConnectionsKeep | AFIRdb/populate.py:65-68 | keys no CONNECTION line sets keep their entries |
| AfirPopulate.ConnectionsEarliest | AFIRdb/populate.py:65-68 | scanning backwards, the earliest CONNECTION line with a key decides that key's pair |
| AfirPopulate.SectionAtoms | AFIRdb/populate.py:60 | each atom read is the one its line describes, numbered by its line |
| AfirPopulate.TsKeepsBase | AFIRdb/populate.py:61-68 | the atoms and energy entries survive the CONNECTION loop |
| AfirPopulate.TsShape | AFIRdb/populate.py:61-70 | `get_ts` is the base record, then the CONNECTION loop, then "NUM" and "LABEL" |
| AfirPopulate.TsAtoms | AFIRdb/populate.py:61-62 | "Atoms" holds the atoms of the lines before "Energy"; "Atoms_xyz" is the atom count, two newlines and those lines |
| AfirPopulate.TsEnergy | AFIRdb/populate.py:63-64 | the energy sits under the first token of the "Energy" line |
| AfirPopulate.TsLabel | AFIRdb/populate.py:69-70 | "NUM" is the header's structure number and "LABEL" is `typ:NUM` |
| AfirPopulate.TsConnection | AFIRdb/populate.py:65-68 | a CONNECTION entry holds the two integers of the earliest line with that key |
| AfirPopulate.GetTs | AFIRdb/populate.py:48-71 | `get_ts` builds `TsRecord` |
| AfirPopulate.GetEq | AFIRdb/populate.py:74-92 | `get_eq` builds `EqRecord` |
| AfirPopulate.EqFields | AFIRdb/populate.py:87-92 | `get_eq` has exactly the atoms, the XYZ text, the energy and "NUM" entries, as `get_ts` fills them |

## Left out

- The chemistry libraries are represented only by their answers, which are fields of the inputs:
  - CGRtools: `str(structure)`, `split()`, `get_mapping`, `r ^ p`, coordinate rounding;
  - CGRdb: `find_structure` and record ids.
- `float()` and `int()` on text are parameters (`toReal`, `toInt`). Energies are exact reals: no floating-point rounding is modelled.
- Neo4j and neomodel are the `Graph` value and the `Db` object.
  - No transactions or concurrency are modelled.
  - An insertion that raises keeps the writes made before the exception.
  - `get_or_create` is a lookup followed by a save.
- The `is_connected` guards at AFIRdb/graph.py:146 and 265 are not modelled as branches. They always pass for a state just saved, as `AfirStore.EsGuardPasses` and `AfirStore.TsGuardPasses` show, so the link is always made.
- The iteration order of Python sets (`cur_compl`) is a parameter, `order`. Heap entries are compared by length, barrier and a unique counter, so the paths themselves are never compared.
- Display and I/O are not modelled:
  - `depict`, `depict3d`, `view3d`, `_repr_svg_`, `__str__`;
  - the `structure` properties, which rebuild molecules through CGRtools;
  - `xyz`;
  - `get_figure`, `draw`, `get_mrv` and `cleanDB` of the web UI;
  - the command-line entry points.
- `put_structure`, `put_reaction`, `put_ts`, `put_tss` and `put_structures` of AFIRdb/populate.py are not modelled. They do not parse: several `def` lines lack their colon. They also use names the file does not define.
- The `Disabled` class of AFIRdb/graph.py is not modelled. It wraps Cypher queries for a Neo4j plugin and is mixed into no node class.
- The `Molecule` and `Reaction` lookups by id (`Mixin.get`, `ExtNodeMeta.__getitem__`) are not modelled. The model addresses nodes by id directly.
- RePathStore.PutReaction: no lemma covers two full insertions of the same reaction when the TS energy differs. `RePathStore.ReactionRefused` covers the repeat with the same TS energy.
- AfirStore.PutReaction: for a new reaction, the TS is stated to exist (with its barriers) without naming its id. `AfirStore.LinkNewReaction` names it.
- PathSearch.Search: the search runs over a `Net` value, which holds each complex's reactions, energies and products; nothing derives it from the `Graph` value.
  - Termination and the other results are proved for a `Complete` network, in which no reaction is listed twice for one complex. The database satisfies this because the C2R and R2C relationships are written only when a reaction is new (RePathDB/graph.py:418-424), so `cur.reactant.all()` meets each reaction once.
  - `Complete` also demands that every reaction has a product. This rules out the IndexError that `r.product.all()[0]` would raise for a reaction without one (RePathDB/graph.py:149 and 287).
- Mappings.Decode: keys are read as canonical decimal numerals, which is what `str(int)` writes (RePathDB/graph.py:63). Other text that Python's `int()` accepts, such as "05", "+5", " 5" or "1_0", is a ValueError in the model; the two readings differ only on JSON the code never writes.
