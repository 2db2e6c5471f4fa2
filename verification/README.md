# Verified models of SONiC build-image components

This project models, in Dafny, the parts of the SONiC build image that transform data and are relied on
to lose nothing: the layered version resolver, the ConfigDB/YANG translator, the FRU codec, the unit-file
rewriting of the systemd generator, and five smaller cores. It proves what they promise, and where a
promise does not hold for all inputs, exactly when it holds.

Code that updates objects, dictionaries or buffers is modelled by classes and methods with loops
(`VersionManager`, `VersionStore`, `YangTranslator`, `YangDatabase`, `FruDevice`, `UnitGenerator`,
`MidplaneBuffer`, `CoreCleanup`, `Ecmp`, `PortChannels`, `Breakout`, `FanTlv`). Each such method is proved
against a function or relation on values, and the theorems are about those functions.

## What is proved

**Versions** (`VersionLayers`, `VersionLaws`, `VersionAdjust`, `VersionTheorems`, `VersionDelta`,
`VersionRebuild`, `VersionPromises`, `VersionManager`, `VersionFiles`, `VersionStore`). Package versions live in layers, one
for each component type, distribution and architecture. Resolving a target overlays the layers that apply
to it, in sorted order; this is shown to be an overlay of four levels (all/all, all/arch, dist/all,
dist/arch). Deleting entries that more generic layers supply preserves a target if and only if no package
is *reverted* there (generic pin, another pin for the architecture, and only the generic pin repeated for
the distribution); a chain target, which has no pair of an (all, arch) and a (dist, all) layer, never is.
Storing a module as its difference to the defaults and rebuilding it loses nothing, although each layer is
subtracted against layers already cut in the same loop, if and only if no package is *masked*, which takes
defaults with several layers for one key. Writing a module to a directory and loading it
gives back its layers if and only if every entry can be told from its line.

**ConfigDB and YANG** (`Text`, `YangModel`, `YangValues`, `YangKeys`, `YangEntries`, `YangContainers`,
`YangRoundTrip`, `YangTree`, `YangExact`, `YangTranslator`, `YangDatabase`, `YangStale`). Loading a database and reading
it back gives the same database if and only if it is *clean*: a predicate on schema and data that can be
evaluated before the call (trimmed key parts, canonical numbers, trimmed elements of separated lists, no
field named like a key leaf, and so on). Shapes follow section 7.8.2 of RFC 7950 and sections 4 and 5.4 of
RFC 7951. The converse direction rules out that several unclean entries make up for each other. Loading and
reading are specified from every path that earlier calls may have left: the first table is then written, or
read, with the separators of another.

**FRU** (`FruFormat`, `FruAreas`, `FruImage`, `FruRoundTrip`, `FruDevice`). Writing an EEPROM image and
reading it gives the same areas if and only if every field fits, and no one-byte change of the header or of
an area (but for the area's length) is accepted. The format is that of the IPMI Platform Management FRU
Information Storage Definition v1.0, sections 8 and 11 to 13.

**Unit files** (`UnitLines`, `UnitRewrite`, `UnitMeaning`, `UnitTheorems`, `UnitExact`, `UnitGenerator`,
`Midplane`, `MidplaneBuffer`). Read as lines and (directive, unit) pairs, a rewritten unit file is the
original with every unit replaced by the instances that stand for it, if and only if every service among them
has a type, unless it stands for no instance at all (`database` on a smart switch without DPUs). A second run
changes no line and no pair, for every file whose words fit the buffer and have no leading dot. Rendering the
midplane service is idempotent if and only if the lines behind the section meet a condition, and repeated
rendering settles for every file.

**Smaller cores.** Core-file retention in one pass equals the batch answer (`CoreCleanup`); the ECMP bucket
size is a sum of least common multiples (`Ecmp`); port-channel pruning leaves no dangling entry, and fails
exactly for a bad member without a channel (`PortChannels`); breakout ports get disjoint lane blocks and
lose no port exactly when entries have enough lanes and no number is used twice (`Breakout`); the fan TLV
buffer decodes to what was encoded (`FanTlv`). `Sequences` and `StableSort` hold what several of them need.

## What the models showed about the code

- `adjust` can change what a target resolves to (`VersionPromises.RevertWitness`).
- A container inside a list entry is dropped by the forward translation: the guard at
  `src/sonic-yang-mgmt/sonic_yang_ext.py:557` lets only empty ones through, against the comment above it.
- Defaults that pin a package several times under one key, the last time as the generic layer does, can make
  the stored difference resolve to another version than the full module (`VersionRebuild.RebuildWitness`).
- A failed load leaves its path behind, and the first table of the next load is then written with the
  separators of the table that failed. That load can fail although its database is clean and loads by itself
  (`YangStale.StaleLoadFails`).
- Services without a type are written as other units, also where nothing is replaced: `name.` becomes
  `name.(null)` (`UnitExact.RewriteWitness`).
- When something stands behind `[Unit]` on its line, the second rendering of the midplane service drops it
  (`Midplane.RenderWitness`); renderings do not change for ever (`Midplane.RenderSettles`).
- Loading a database takes the tables without a schema out of the caller's own dictionary
  (`YangDatabase.SonicYang.LoadData`).
- A breakout entry with fewer lanes than ports makes ports share one name, and only the last is left
  (`Breakout.LostPorts`).
- A directory name with `py2` or `py3` in it makes all its version files be read in lower case
  (`VersionStore.CapitalsLost`).

## Model

| member | source | states |
|---|---|---|
| VersionLaws.KeyLePreorder | scripts/versions_manager.py:164-171 | the sort key orders layers totally and transitively |
| VersionLaws.SpecificAfterGeneric | scripts/versions_manager.py:137-171 | in sort order no layer stands in front of another that it inherits from |
| VersionLaws.SelectSort | scripts/versions_manager.py:245-250 | sorting layers commutes with picking the ones that apply |
| VersionLaws.ResolveLevels | scripts/versions_manager.py:245-250 | the fold over all sorted applicable layers is the overlay of exactly four levels |
| VersionAdjust.CutLevels | scripts/versions_manager.py:285-298 | at every key, the cut layers over the cut levels below say what the full layers said |
| VersionAdjust.CutLookup | scripts/versions_manager.py:285-298 | package by package, cutting in one pass keeps the answer at a target if and only if the package is not reverted there |
| VersionTheorems.CutOfType | scripts/versions_manager.py:271-306 | adjusting all layers is adjusting the layers of each component type by themselves |
| VersionTheorems.AdjustExact | scripts/versions_manager.py:271-298 | resolving after `adjust` equals resolving before if and only if no package is reverted at the target |
| VersionTheorems.RevertLost | scripts/versions_manager.py:271-298 | a reverted package resolves to the generic version before `adjust` and to the architecture's version after it |
| VersionTheorems.AdjustPreservesChain | scripts/versions_manager.py:245-298 | `adjust` changes nothing at any chain target |
| VersionDelta.AdjustEffective | scripts/versions_manager.py:271-298 | what adjusted layers resolve to is a function of the pinned versions alone |
| VersionDelta.ConfigEffective | scripts/versions_manager.py:228-250 | the configuration of a module over defaults is what is effective in the two lists together |
| VersionDelta.CutDefaultsEffective | scripts/versions_manager.py:252-269 | subtracting layer by layer, each against layers already cut, changes no target |
| VersionDelta.DeltaRebuild | scripts/versions_manager.py:228-269 | the configuration from the stored difference equals the one from the full module, at every chain target, and at every target if the defaults have one layer per key |
| VersionRebuild.ConfigLookup | scripts/versions_manager.py:228-250 | package by package, what a configuration over defaults says, from the pins of the four levels and whether a pin for the distribution counts |
| VersionRebuild.RebuildExact | scripts/versions_manager.py:228-269 | at every target and for all defaults, the configuration from the stored difference equals the one from the full module if and only if no package is masked: the defaults pin it several times for the distribution, in the end as the generic level does, and the module repeats that against another pin for the architecture |
| VersionRebuild.RebuildWitness | scripts/versions_manager.py:228-269 | for every target with a distribution and an architecture, defaults and a module whose difference resolves to another configuration |
| VersionPromises.RevertWitness | scripts/versions_manager.py:271-298 | for every target with a distribution and an architecture, three layers whose answer changes from v to w by `adjust` |
| VersionPromises.OverwriteTakesEffect | scripts/versions_manager.py:194-208 | after overwriting, every entry of the overwriting module is what its own key resolves to |
| VersionPromises.AdjustIdempotent | scripts/versions_manager.py:271-298 | adjusting twice is adjusting once |
| VersionPromises.FilterTransparent | scripts/versions_manager.py:308-337 | the configuration from layers loaded with the target's filter equals the one from all layers |
| VersionManager.Component.constructor | scripts/versions_manager.py:28-37 | an empty distribution or architecture means all |
| VersionManager.Component.Clone | scripts/versions_manager.py:55-56 | a fresh component with the same contents |
| VersionManager.Component.Merge | scripts/versions_manager.py:58-61 | the given versions win, or fill gaps only, for every package |
| VersionManager.Component.Subtract | scripts/versions_manager.py:63-66 | exactly the entries with equal versions are gone |
| VersionManager.VersionModule.ComponentsPerType | scripts/versions_manager.py:300-306 | components grouped by type in order of first appearance, each group in list order |
| VersionManager.VersionModule.MergeInheritable | scripts/versions_manager.py:245-250 | a fresh component with what the inheritable layers supply, in order |
| VersionManager.VersionModule.AdjustComponents | scripts/versions_manager.py:285-298 | in place, the layers of a type are cut against the ones in front and empty ones dropped |
| VersionManager.VersionModule.Adjust | scripts/versions_manager.py:271-276 | the module holds the adjusted layers in components it already had |
| VersionManager.VersionModule.Clone | scripts/versions_manager.py:386-394 | a copy that shares no component |
| VersionManager.VersionModule.Overwrite | scripts/versions_manager.py:194-208 | the other module's layers are laid over this one's and redundant entries dropped; the other module is not changed and shares no component |
| VersionManager.VersionModule.GetConfigModule | scripts/versions_manager.py:228-243 | one layer per type with what the target resolves to over the defaults; neither module is changed |
| VersionManager.VersionModule.Subtract | scripts/versions_manager.py:252-269 | the module holds its difference to the defaults, in components that are all fresh; the defaults are not changed |
| VersionFiles.EntryExact | scripts/versions_manager.py:40-53 | a line written for a package and version is read back as them if and only if the name is non-empty, trimmed and (for Python) lower-case, and the version trimmed, without `==` and not starting with `=` |
| VersionFiles.ReadShorter | scripts/versions_manager.py:40-53 | a written line is read as itself or as something strictly smaller |
| VersionFiles.ReadOneLines | scripts/versions_manager.py:40-53 | whatever a file holds, names and versions that are read have no line ends |
| VersionFiles.FileExact | scripts/versions_manager.py:40-76 | a dumped version map is read back if and only if every entry is clean and has no line ends; unclean entries cannot make up for each other |
| VersionFiles.FileNameExact | scripts/versions_manager.py:153-162 | splitting the file name gives back type, distribution and architecture if and only if none has a dash |
| VersionStore.GetVersions | scripts/versions_manager.py:40-53 | the map of all lines with a separator, later lines winning, and nothing for a missing file |
| VersionStore.Dump | scripts/versions_manager.py:68-76 | each package on one line, sorted without regard to case, for any order of the dictionary |
| VersionStore.DumpModule | scripts/versions_manager.py:357-362 | version files are replaced by one for each component with entries, others are left |
| VersionStore.OthersKept | scripts/versions_manager.py:357-362 | files that are not version files survive with their contents |
| VersionStore.Load | scripts/versions_manager.py:308-337 | fresh components for the files that the filter lets pass, in listing order |
| VersionStore.LoadFile | scripts/versions_manager.py:316-334 | a component exactly for names with a key that pass the type, distribution and architecture filters |
| VersionStore.LoadedFiltered | scripts/versions_manager.py:316-334 | loading with a filter is filtering what is loaded without one |
| VersionStore.DirectoryExact | scripts/versions_manager.py:308-362 | dumping a module with distinct dash-free keys and loading it, in any listing order, gives exactly its layers with entries if and only if every layer survives in its file |
| VersionStore.CapitalsLost | scripts/versions_manager.py:40-362 | for every directory named for Python, every dash-free key and every package name with capitals, a module of that one entry is stored and does not come back |
| VersionStore.StoredResolves | scripts/versions_manager.py:245-337 | then every target resolves to the same versions from the directory, with its own filter or without |
| Text.StripTrims | src/sonic-yang-mgmt/sonic_yang_ext.py:254-267 | stripping leaves trimmed text and changes nothing exactly for trimmed text |
| Text.SplitJoin | src/sonic-yang-mgmt/sonic_yang_ext.py:254-267 | splitting undoes joining when no part has the separator |
| Text.JoinSplit | src/sonic-yang-mgmt/sonic_yang_ext.py:254-267 | joining undoes splitting |
| Text.IntRoundTrip | src/sonic-yang-mgmt/sonic_yang_ext.py:407-441 | printing the number that a text is read as gives the text if and only if the text is canonical |
| YangValues.ItemExact | src/sonic-yang-mgmt/sonic_yang_ext.py:407-441 | one element of a leaf comes back as its text if and only if it is clean for the leaf's type |
| YangValues.UnseparatedTextExact | src/sonic-yang-mgmt/sonic_yang_ext.py:407-835 | a list field whose text is separated only when read comes back if and only if the value is clean: text of at most one character |
| YangValues.ValueExact | src/sonic-yang-mgmt/sonic_yang_ext.py:407-441 | a scalar, list or separated-text value comes back from the data tree if and only if it is clean, for every pair of tables under which it is written and read |
| YangKeys.KeyExact | src/sonic-yang-mgmt/sonic_yang_ext.py:788-806 | a table key is rebuilt from its key leaves if and only if every part is non-empty and trimmed |
| YangKeys.RebuiltKeyClean | src/sonic-yang-mgmt/sonic_yang_ext.py:788-806 | any key that is rebuilt is one that is rebuilt as itself |
| YangEntries.EntryExact | src/sonic-yang-mgmt/sonic_yang_ext.py:577-642 | an accepted entry, of an ordinary or a map list, is read back as it was if and only if it is clean |
| YangRoundTrip.Shares | src/sonic-yang-mgmt/sonic_yang_ext.py:695-745 | what lists, inner containers and leaves take of a table is all of it |
| YangRoundTrip.ContainerRoundTrip | src/sonic-yang-mgmt/sonic_yang_ext.py:695-1024 | a clean table comes back, whichever list, container or leaf took each key and in whatever order dictionaries were iterated |
| YangTree.LoadTranslated | src/sonic-yang-mgmt/sonic_yang_ext.py:1159-1185 | the data tree of a translation is a translation of the same table with booleans typed |
| YangExact.EntryImage | src/sonic-yang-mgmt/sonic_yang_ext.py:918-963 | an entry never grows on its way, shrinks if it loses a field, and otherwise gets a clean key |
| YangExact.NoLossy | src/sonic-yang-mgmt/sonic_yang_ext.py:577-963 | if a table came back, no entry lost a field |
| YangExact.RestoredBySelf | src/sonic-yang-mgmt/sonic_yang_ext.py:577-963 | if a table came back, every entry came back from itself and was clean |
| YangExact.ContainerOnlyClean | src/sonic-yang-mgmt/sonic_yang_ext.py:695-1024 | only a clean table comes back as it was |
| YangExact.TableExact | src/sonic-yang-mgmt/sonic_yang_ext.py:695-1024 | forward, data tree, backward: a table comes back as it was if and only if it is clean |
| YangTranslator.FirstAcceptingExact | src/sonic-yang-mgmt/sonic_yang_ext.py:577-657 | a key goes to the first list that accepts it and to none exactly when none does |
| YangTranslator.ExtractKeyOf | src/sonic-yang-mgmt/sonic_yang_ext.py:254-267 | key leaves with the stripped parts of the key, or failure when the numbers differ |
| YangTranslator.CreateKeyOf | src/sonic-yang-mgmt/sonic_yang_ext.py:788-806 | the joined key parts, or failure for an empty or missing one |
| YangTranslator.Translator.FindTypedValue | src/sonic-yang-mgmt/sonic_yang_ext.py:407-441 | the typed value of a field for the table at the start of the path, whatever table is translated |
| YangTranslator.Translator.XlatePairs | src/sonic-yang-mgmt/sonic_yang_ext.py:496-543 | the pairs of a map-list entry, one for each field in any order |
| YangTranslator.Translator.XlateContainerInList | src/sonic-yang-mgmt/sonic_yang_ext.py:550-566 | a non-empty container is skipped, an empty dictionary gives nothing, and empty text or an empty list fails with the name left on the path |
| YangTranslator.Translator.XlateEntry | src/sonic-yang-mgmt/sonic_yang_ext.py:577-642 | an entry exactly when the list accepts it; the path is as before, but for one key that the missing pop behind a failed inner container leaves |
| YangTranslator.Translator.XlateList | src/sonic-yang-mgmt/sonic_yang_ext.py:577-642 | exactly the accepted entries move, failed attempts leave nothing behind, and the path only grows, by nothing if no inner container fails |
| YangTranslator.Translator.XlateLists | src/sonic-yang-mgmt/sonic_yang_ext.py:648-745 | each list gets exactly the keys it is the first to accept; the path keeps its start, and all of it for lists without inner containers |
| YangTranslator.Translator.XlateInners | src/sonic-yang-mgmt/sonic_yang_ext.py:664-688 | the inner containers take their own keys and leave the rest |
| YangTranslator.Translator.XlateContainer | src/sonic-yang-mgmt/sonic_yang_ext.py:695-745 | translation succeeds exactly when every key can be placed, gives a translation of the table, and keeps the path as a prefix of the new one, equal to it for a container without inner containers in lists |
| YangTranslator.Translator.RevFindTypedValue | src/sonic-yang-mgmt/sonic_yang_ext.py:813-835 | the database value of a leaf, joined with the separator of its field |
| YangTranslator.Translator.RevXlatePairs | src/sonic-yang-mgmt/sonic_yang_ext.py:883-913 | the fields of a map-list entry read from its pairs |
| YangTranslator.Translator.RevXlateList | src/sonic-yang-mgmt/sonic_yang_ext.py:918-963 | all entries of a list read back under their rebuilt keys, later ones winning |
| YangTranslator.Translator.RevXlateContainer | src/sonic-yang-mgmt/sonic_yang_ext.py:994-1024 | the table read back from lists, inner containers and leaves; the path is restored on success |
| YangDatabase.TableOfSubKey | src/sonic-yang-mgmt/sonic_yang_ext.py:750-1055 | the name of a container names its table again |
| YangDatabase.DatabaseRoundTrip | src/sonic-yang-mgmt/sonic_yang_ext.py:750-1055 | in whatever order tables are visited, the tree of a clean database reads as that database |
| YangDatabase.TableCameBack | src/sonic-yang-mgmt/sonic_yang_ext.py:750-1055 | a table that came back as it was is clean |
| YangDatabase.SonicYang.CropConfigDB | src/sonic-yang-mgmt/sonic_yang_ext.py:226-242 | exactly the tables without a schema are set aside and taken out of the caller's dictionary |
| YangDatabase.SonicYang.XlateTable | src/sonic-yang-mgmt/sonic_yang_ext.py:750-767 | from every path, a table is translated exactly when it can be under the name at the start of the path; the path is reset exactly on success |
| YangDatabase.SonicYang.XlateConfigDBtoYang | src/sonic-yang-mgmt/sonic_yang_ext.py:750-767 | from every path, all tables are translated exactly when the first can be under the name left on the path and each other under its own; a failure leaves the name of the failed table |
| YangDatabase.SonicYang.RevXlateYangtoConfigDB | src/sonic-yang-mgmt/sonic_yang_ext.py:1029-1055 | from every path, every container is read back under its table, the first one with the separators of a name left on the path; failure exactly when one cannot be read |
| YangDatabase.SonicYang.LoadData | src/sonic-yang-mgmt/sonic_yang_ext.py:1159-1185 | from every path, when a load succeeds, what is loaded, what is set aside, what the caller's dictionary keeps, and what a failure leaves behind: a name on the path and no data tree |
| YangDatabase.SonicYang.GetData | src/sonic-yang-mgmt/sonic_yang_ext.py:1190-1208 | from every path, the data tree read back, or failure exactly when there is no tree or a container cannot be read |
| YangDatabase.SonicYang.LoadAndGet | src/sonic-yang-mgmt/sonic_yang_ext.py:1159-1208 | from every path, if a database loads, what is read back and the tables set aside are the database if and only if it is clean for the names under which it is written |
| YangDatabase.SonicYang.LoadTwice | src/sonic-yang-mgmt/sonic_yang_ext.py:750-1185 | two loads on one object: if the first fails, the second succeeds exactly when its first table can be translated under the name that was left |
| YangStale.LoadAfterFailure | src/sonic-yang-mgmt/sonic_yang_ext.py:750-1185 | for all schemas and tables, a load after a failed one succeeds exactly when its table can be translated with the separators of the table that failed |
| YangStale.StaleLoadFails | src/sonic-yang-mgmt/sonic_yang_ext.py:750-1185 | for all tables and list fields that are separated in one and not in the other, and all texts of canonical numbers: a load fails, and then the load of a database that is clean and loads by itself fails too |
| FruAreas.GrownSteps | device/micas/x86_64-micas_m2-w6510-48v8c-r0/fru.py:293-308 | an area grows in steps of eight, only if it must and no further |
| FruAreas.SealedArea | device/micas/x86_64-micas_m2-w6510-48v8c-r0/fru.py:247-308 | the data has the size it declares, a multiple of eight grown by the least sufficient amount, and sums to zero modulo 256 |
| FruAreas.LengthTold | device/micas/x86_64-micas_m2-w6510-48v8c-r0/fru.py:29-59 | lengths below 64 can be told from their type/length byte, no others; length 1 looks like the end mark |
| FruAreas.DateExact | device/micas/x86_64-micas_m2-w6510-48v8c-r0/fru.py:192-308 | the three date bytes give the date back if and only if it is below 2^24 |
| FruAreas.FieldsExact | device/micas/x86_64-micas_m2-w6510-48v8c-r0/fru.py:192-240 | the fixed fields come back if and only if each is shorter than 64 |
| FruAreas.ExtrasExact | device/micas/x86_64-micas_m2-w6510-48v8c-r0/fru.py:192-240 | the extra fields come back if and only if each fits and none looks like the end |
| FruAreas.BoardExact | device/micas/x86_64-micas_m2-w6510-48v8c-r0/fru.py:192-308 | a board area reads back as it was written if and only if its date and fields fit |
| FruAreas.ProductExact | device/micas/x86_64-micas_m2-w6510-48v8c-r0/fru.py:445-628 | a product area reads back as it was written if and only if its fields fit |
| FruImage.OneByteNoticed | device/micas/x86_64-micas_m2-w6510-48v8c-r0/fru.py:677-746 | no one-byte change of the header, or of a board or product area but for its length, is accepted |
| FruRoundTrip.LayoutAligned | device/micas/x86_64-micas_m2-w6510-48v8c-r0/fru.py:876-931 | the offsets in the header are exactly where the areas start |
| FruRoundTrip.ImageExact | device/micas/x86_64-micas_m2-w6510-48v8c-r0/fru.py:677-956 | an image decodes to the areas and offsets it was made from if and only if every field fits |
| FruRoundTrip.ImageBytes | device/micas/x86_64-micas_m2-w6510-48v8c-r0/fru.py:876-951 | in an EEPROM of at most 2048 bytes all offsets, lengths and checksums are bytes |
| FruDevice.ComputeChecksum | device/micas/x86_64-micas_m2-w6510-48v8c-r0/fru.py:62-66 | the byte that brings the sum to zero modulo 256 |
| FruDevice.DecodeFields | device/micas/x86_64-micas_m2-w6510-48v8c-r0/fru.py:192-240 | the fields from a running index on, failing exactly when the index leaves the data |
| FruDevice.DecodeExtras | device/micas/x86_64-micas_m2-w6510-48v8c-r0/fru.py:192-240 | at most so many extra fields up to the end mark |
| FruDevice.Seal | device/micas/x86_64-micas_m2-w6510-48v8c-r0/fru.py:293-308 | length, padding and checksum of an area that grows until its text fits |
| FruDevice.BoardInfoArea.DecodeData | device/micas/x86_64-micas_m2-w6510-48v8c-r0/fru.py:192-240 | the fields of the board, or failure |
| FruDevice.BoardInfoArea.Recalcute | device/micas/x86_64-micas_m2-w6510-48v8c-r0/fru.py:247-308 | the date is set, data and size are those of the sealed text |
| FruDevice.ProductInfoArea.DecodeData | device/micas/x86_64-micas_m2-w6510-48v8c-r0/fru.py:445-499 | the fields of the product, or failure |
| FruDevice.ProductInfoArea.Recalcute | device/micas/x86_64-micas_m2-w6510-48v8c-r0/fru.py:576-628 | data and size are those of the sealed text |
| FruDevice.IpmiFru.DecodeBin | device/micas/x86_64-micas_m2-w6510-48v8c-r0/fru.py:677-746 | areas that the header names replace the object's, others stay; failure exactly for a bad header, area or checksum |
| FruDevice.IpmiFru.RecalcuteBin | device/micas/x86_64-micas_m2-w6510-48v8c-r0/fru.py:933-951 | the areas behind each other, with the multi-record area repeating the product |
| FruDevice.IpmiFru.RecalcuteCommonHead | device/micas/x86_64-micas_m2-w6510-48v8c-r0/fru.py:876-931 | offsets, header checksum and padding; an image that does not fit is refused |
| FruDevice.IpmiFru.Recalcute | device/micas/x86_64-micas_m2-w6510-48v8c-r0/fru.py:953-956 | the object holds the image and the sizes and offsets in it |
| FruDevice.IpmiFru.WriteAndRead | device/micas/x86_64-micas_m2-w6510-48v8c-r0/fru.py:677-956 | an image written by one object and read by another gives it the same areas if and only if the image fits the EEPROM and all fields fit |
| UnitMeaning.WordExact | src/systemd-sonic-generator/systemd-sonic-generator.cpp:302-386 | the code writes the units that stand for a word if and only if the word has no leading dot and, if it is a service, a type, or if it is a service that stands for no instance |
| UnitMeaning.LineTokens | src/systemd-sonic-generator/systemd-sonic-generator.cpp:302-386 | the tokenizer gives a directive and words of a dependency line |
| UnitMeaning.TargetLine | src/systemd-sonic-generator/systemd-sonic-generator.cpp:302-386 | a written line is read as the one pair it was written for |
| UnitTheorems.RewriteMeaning | src/systemd-sonic-generator/systemd-sonic-generator.cpp:216-386 | as lines and pairs, the output is the input with each unit replaced by exactly its instances, in order, and it can be rewritten again |
| UnitTheorems.TargetsStable | src/systemd-sonic-generator/systemd-sonic-generator.cpp:216-263 | what stands for a unit stands for itself |
| UnitExact.WrittenMeaning | src/systemd-sonic-generator/systemd-sonic-generator.cpp:216-386 | for words that fit the buffer, the output read as lines and pairs is what the code writes for each word, kept or not, and it can be rewritten again |
| UnitExact.RewriteTwice | src/systemd-sonic-generator/systemd-sonic-generator.cpp:302-386 | for every file whose words fit the buffer and have no leading dot, a second run changes no line and no pair, also where the first run changed units |
| UnitExact.RewriteExact | src/systemd-sonic-generator/systemd-sonic-generator.cpp:216-386 | for files whose words fit the buffer and have no leading dot, the output means the expanded file if and only if every service has a type or stands for no instance; lost words cannot make up for each other |
| UnitExact.RewriteWitness | src/systemd-sonic-generator/systemd-sonic-generator.cpp:302-386 | for all directives and names, and on every platform with units that stand for the service, a file with one dependency on a service without a type is written as one on other units |
| UnitGenerator.WriteInstances | src/systemd-sonic-generator/systemd-sonic-generator.cpp:302-386 | one line for each instance number from zero |
| UnitGenerator.WriteWord | src/systemd-sonic-generator/systemd-sonic-generator.cpp:302-386 | the lines for one word, for ASICs, DPUs or a single unit |
| UnitGenerator.WriteLine | src/systemd-sonic-generator/systemd-sonic-generator.cpp:302-386 | lines from the first Service or Timer section on are copied, others rewritten |
| UnitGenerator.ReplaceMultiInstDep | src/systemd-sonic-generator/systemd-sonic-generator.cpp:302-386 | the rewritten file, whose meaning is the expanded meaning of the file if and only if every service has a type or stands for no instance |
| Midplane.ScrubExact | src/systemd-sonic-generator/systemd-sonic-generator.cpp:966-1042 | where the key only starts lines, exactly the stale lines go, in order, and nothing is left to scrub |
| Midplane.RenderTwiceExact | src/systemd-sonic-generator/systemd-sonic-generator.cpp:956-1043 | rendering twice is rendering once if and only if, in the lines behind the section, an empty line comes first (behind nothing but stale lines) and no line that scrubbing joins together is stale |
| Midplane.SettledExact | src/systemd-sonic-generator/systemd-sonic-generator.cpp:966-1042 | a second scrubbing changes nothing if and only if no line that the first joins together is stale |
| Midplane.RenderSecond | src/systemd-sonic-generator/systemd-sonic-generator.cpp:956-1043 | the second rendering for every file: the rest of the line of the section is lost and the kept lines behind it are scrubbed once more |
| Midplane.RenderThirdExact | src/systemd-sonic-generator/systemd-sonic-generator.cpp:956-1043 | the third rendering equals the second if and only if, of the kept lines behind the first, no line that scrubbing joins together is stale |
| Midplane.RenderSettles | src/systemd-sonic-generator/systemd-sonic-generator.cpp:956-1043 | every file with the section stays the same after finitely many renderings, at most three more than it has characters |
| Midplane.RenderWitness | src/systemd-sonic-generator/systemd-sonic-generator.cpp:956-1043 | for all text behind the section on its line, without a key of its own, and all that follows: the first rendering has it, the second does not |
| Midplane.RenderTwice | src/systemd-sonic-generator/ssg-test.cc:749 | a tidy file is rendered to the same file however often |
| Midplane.RenderLines | src/systemd-sonic-generator/systemd-sonic-generator.cpp:956-1043 | the lines of the result: those up to the section, the one inserted line, and all others but the stale ones |
| Midplane.MidplaneGood | src/systemd-sonic-generator/systemd-sonic-generator.cpp:956-1043 | the inserted line is found as stale by the next rendering |
| MidplaneBuffer.Search | src/systemd-sonic-generator/systemd-sonic-generator.cpp:966-1042 | the first occurrence from an index on |
| MidplaneBuffer.Insert | src/systemd-sonic-generator/systemd-sonic-generator.cpp:966-1042 | text is moved up and the line put in between, within the buffer |
| MidplaneBuffer.Remove | src/systemd-sonic-generator/systemd-sonic-generator.cpp:966-1042 | a line is removed by moving what follows, closing NUL included |
| MidplaneBuffer.Round | src/systemd-sonic-generator/systemd-sonic-generator.cpp:966-1042 | each round leaves less text and the same result |
| MidplaneBuffer.RenderNetworkService | src/systemd-sonic-generator/systemd-sonic-generator.cpp:956-1043 | the buffer holds the rendered text, with all accesses in bounds, or the section is missing |
| CoreCleanup.StreamedNewest | files/scripts/core_cleanup.py:25-39 | keeping at most four while files arrive is the batch answer for the files so far |
| CoreCleanup.NewestExact | files/scripts/core_cleanup.py:25-39 | up to four files are kept, and no other file of the process is newer |
| CoreCleanup.GivenUpNext | files/scripts/core_cleanup.py:31-39 | a file gives up at most one file, of its own process, and files given up stay so |
| CoreCleanup.CoreDirectory.Delete | files/scripts/core_cleanup.py:35-38 | the file is gone unless it cannot be deleted, and nothing else changes |
| CoreCleanup.CoreDirectory.LookAt | files/scripts/core_cleanup.py:25-39 | one file keeps lists and directory at the batch answer, or fails on a name without a date |
| CoreCleanup.CoreDirectory.Cleanup | files/scripts/core_cleanup.py:24-39 | for any order, exactly the files outside the newest four of their process are gone, but for those that cannot be deleted |
| Ecmp.GcdDivides | src/sonic-config-engine/minigraph.py:525-528 | Euclid's result divides both numbers |
| Ecmp.GcdGreatest | src/sonic-config-engine/minigraph.py:525-528 | every common divisor divides it |
| Ecmp.CalculateGcd | src/sonic-config-engine/minigraph.py:525-528 | the loop computes the greatest common divisor |
| Ecmp.Lcm2Multiple | src/sonic-config-engine/minigraph.py:519 | the quotient in the fold is exact and a multiple of both numbers |
| Ecmp.Lcm2Least | src/sonic-config-engine/minigraph.py:519 | it divides every common multiple |
| Ecmp.LcmExact | src/sonic-config-engine/minigraph.py:515-520 | the fold over 1 to n is the least positive number that all of 1 to n divide |
| Ecmp.LcmUpTo | src/sonic-config-engine/minigraph.py:515-520 | the loop computes the fold |
| Ecmp.MembersAddUp | src/sonic-config-engine/minigraph.py:508-514 | the members of all banks are all next hops |
| Ecmp.EnumeratedSorted | src/sonic-config-engine/minigraph.py:546-547 | banks are numbered in the order of device names |
| Ecmp.BankUsed | src/sonic-config-engine/minigraph.py:546-548 | every bank has a next hop |
| Ecmp.CalculateLcmForEcmp | src/sonic-config-engine/minigraph.py:505-523 | the sum over banks of the least common multiple for the size of the bank |
| Ecmp.FormulateFineGrainedEcmp | src/sonic-config-engine/minigraph.py:544-549 | the bucket size over banks that together have exactly all next hops, each at least one |
| PortChannels.Tables.AddInterface | src/sonic-config-engine/minigraph.py:2329-2331 | interfaces are entered by address and by name, so that both keys are there together |
| PortChannels.Tables.DeleteChannel | src/sonic-config-engine/minigraph.py:2495-2505 | a channel goes with all its members |
| PortChannels.Tables.PruneChannels | src/sonic-config-engine/minigraph.py:2495-2505 | in any order, exactly the channels with a member that is no port are gone, with all their members; no deletion hits a missing channel exactly when bad members have channels |
| PortChannels.Tables.PruneInterfaces | src/sonic-config-engine/minigraph.py:2516-2521 | of the interfaces of missing channels exactly the addresses go, and the names that have an address |
| PortChannels.AllAttached | src/sonic-config-engine/minigraph.py:2516-2521 | only interfaces of surviving channels are left if and only if no missing channel has a name without an address |
| PortChannels.DetachAll | src/sonic-config-engine/minigraph.py:2329-2521 | of interfaces entered by address and name, exactly those of surviving channels stay, in pairs |
| PortChannels.Tables.Prune | src/sonic-config-engine/minigraph.py:2495-2521 | fails exactly when a member that is no port has no channel; afterwards members are on ports, those that had a channel have one, and interfaces entered by address and name belong to surviving channels |
| PortChannels.PrunedAll | src/sonic-config-engine/minigraph.py:2495-2505 | the result does not depend on the order of deletions |
| Breakout.BlocksChained | src/sonic-config-engine/portconfig.py:369-387 | blocks follow each other without gaps within the lanes of the mode, one for each port |
| Breakout.ChainedApart | src/sonic-config-engine/portconfig.py:369-387 | blocks are disjoint and in order |
| Breakout.BlocksPositive | src/sonic-config-engine/portconfig.py:369-387 | ports advance the lane number if and only if entries have enough lanes |
| Breakout.DealtPrefix | src/sonic-config-engine/portconfig.py:369-387 | the ports together get a prefix of the lanes, each lane once |
| Breakout.LanesDealt | src/sonic-config-engine/portconfig.py:353-388 | the blocks of an interface lie within its lanes and together are the first of them, each once |
| Breakout.ConfigExact | src/sonic-config-engine/portconfig.py:353-388 | the table has a place for every port if and only if the entries have enough lanes; else ports are lost |
| Breakout.LostPorts | src/sonic-config-engine/portconfig.py:353-388 | for every interface with one entry of fewer lanes than ports, the table is made and has only the last port |
| Breakout.NoCommonPort | src/sonic-config-engine/portconfig.py:418-441 | interfaces with disjoint ranges share no port name |
| Breakout.CommonNames | src/sonic-config-engine/portconfig.py:418-441 | the tables of two interfaces have a name in common if and only if the interfaces have a port number in common |
| Breakout.SeparatedLossless | src/sonic-config-engine/portconfig.py:418-441 | interfaces with a lane for each port and disjoint ranges use no port number twice |
| Breakout.MergedKeeps | src/sonic-config-engine/portconfig.py:418-441 | merging keeps every port of every interface, under its name and with its contents, if no number is used twice |
| Breakout.MergedExact | src/sonic-config-engine/portconfig.py:418-441 | the merged table has as many ports as the modes ask for if and only if every interface has enough lanes and no two have a port number in common; otherwise it has fewer |
| Breakout.DealLanes | src/sonic-config-engine/portconfig.py:369-387 | the running lane numbers give the blocks; an entry without ports is an error |
| Breakout.GetConfig | src/sonic-config-engine/portconfig.py:353-388 | the table, or an exception exactly for too many lanes, no ports, or missing aliases or indexes |
| Breakout.MergeChildPorts | src/sonic-config-engine/portconfig.py:418-441 | the tables of all interfaces merged in order, or the first exception |
| Breakout.ParsePlatform | src/sonic-config-engine/portconfig.py:403-441 | a table exactly when every interface has one; it is the tables merged in order, and has all ports with their contents if and only if no number is used twice |
| FanTlv.NumberOfFour | device/ragile/x86_64-ragile_ra-b6510-32c-r0/fantlv.py:67-88 | four bytes give a number below 2^32 back |
| FanTlv.NumberOfDevice | device/ragile/x86_64-ragile_ra-b6510-32c-r0/fantlv.py:67-134 | the bytes of any device type, four or more, give the number back |
| FanTlv.CutRecord | device/ragile/x86_64-ragile_ra-b6510-32c-r0/fantlv.py:139-168 | a record is cut off as kind and value whatever follows |
| FanTlv.GeneratedBytes | device/ragile/x86_64-ragile_ra-b6510-32c-r0/fantlv.py:90-134 | the buffer has 256 bytes and its sum fits two of them |
| FanTlv.FanRoundTrip | device/ragile/x86_64-ragile_ra-b6510-32c-r0/fantlv.py:90-205 | decoding a generated buffer gives back all four fields, whatever they were before |
| FanTlv.FanDevice.FanCrc | device/ragile/x86_64-ragile_ra-b6510-32c-r0/fantlv.py:170-175 | the sum of the bytes |
| FanTlv.FanDevice.GenerateFanValue | device/ragile/x86_64-ragile_ra-b6510-32c-r0/fantlv.py:90-134 | the buffer with header, records and sum, or failure exactly when the records do not fit or the device type has more than eight digits and an odd number of them |
| FanTlv.FanDevice.Decoder | device/ragile/x86_64-ragile_ra-b6510-32c-r0/fantlv.py:177-205 | the field that the record names is set, or the kind is unknown |
| FanTlv.FanDevice.Decode | device/ragile/x86_64-ragile_ra-b6510-32c-r0/fantlv.py:139-168 | the fields that the records of a valid buffer set, or failure |

## Left out

- Versions: merging for all distributions or architectures (`for_all_dist`, `for_all_arch`), the host-image special cases, cleaning of component info, the deb preference format and verbose printing.
- VersionStore.DirectoryExact: file names are keys of a map, so parts of a key with a slash, which would be other directories, are not modelled.
- VersionFiles.EntryExact: lower case is that of ASCII letters; lower case of other letters is not modelled.
- YANG schema loading and leaf dictionaries (`_createLeafDict`, groupings, prefixes): the model starts from a schema of containers, lists and typed leaves.
- YANG library: the data tree is the identity with key leaves as text and booleans typed; validation is not modelled.
- YANG values: digits are ASCII, and table values are dictionaries.
- YangTranslator.Translator.FindTypedValue: a dictionary where a leaf is expected is refused, where the source prints it.
- YangTranslator.Translator.XlatePairs: a dictionary as a value is refused and the printed form of a list is simplified, because printing of nested values is not modelled.
- YANG containers inside list entries: the forward direction is modelled as it is (non-empty ones are dropped, whatever they are, and only empty text or an empty list is refused); reading them back is not.
- YangDatabase.SonicYang.LoadData: tables themselves are values; a caller that holds on to an inner dictionary is not modelled.
- YANG exception lists and messages, file output and xpath search (`_findYangList`, `findXpathPort`, `deleteNode`).
- FRU internal-use area: assigning it never returns in the source, so a header with one is refused; the multi-record area is written as in the source but has no fields.
- FRU date and clock: the date is a parameter; the three date bytes are added where the source uses or.
- FRU fields: the reads that the source writes out one by one are a loop over the field list; the other copies of `fru.py` are near duplicates.
- Unit files: reading and writing files, symbolic links, install targets and `get_unit_files`; characters that are NUL.
- MidplaneBuffer.RenderNetworkService: a file without the section, for which the source has undefined behaviour, is a failure here.
- UnitMeaning.WordExact: for a word with a leading dot the source frees a pointer into the middle of an allocation (`systemd-sonic-generator.cpp:353-372`), which is undefined behaviour; the model only says what would be written.
- UnitGenerator.WriteWord: the same undefined behaviour for a leading dot is not modelled.
- UnitTheorems.RewriteMeaning: requires words that the fixed-size buffer does not truncate.
- UnitExact.RewriteExact: requires words that the fixed-size buffer does not truncate and that have no leading dot.
- Ecmp.LcmUpTo: division is exact on integers where the source divides floating-point numbers.
- Ecmp.CalculateLcmForEcmp: the same exact division.
- Ecmp.FormulateFineGrainedEcmp: takes the device of each next hop; the member and prefix tables built from it are not modelled.
- Breakout.ParsePlatform: the alias map and the optional attributes of `hwsku.json` are not modelled.
- Breakout: parsing of mode strings, equality of entries, speeds as text and optional attributes of `hwsku.json`; an entry without ports is refused before any port is written, where the source fails in the middle of it.
- FanTlv.FanDevice.GenerateFanValue: the device type is no negative number.
- CoreCleanup: listing the directory, privileges and logging; the listing is a parameter.
- The rest of `minigraph.py`, the monitors, system tests, build scripts and platform drivers: they add one-branch members.
