# Skill map parsing and code carryover, in Dafny

This project models two parts of the skill map web app of the MakeCode
editor:

- **Code carryover** (`skillmap/src/lib/codeCarryover.ts`). When a learner
  moves on to the next activity of a skill map, the app picks the project
  of the first earlier activity that is finished. It then rebuilds the new
  project from the two projects (`mergeProjectCode`):
  - The three program files (`main.ts`, `main.py`, `main.blocks`) are taken
    whole from one side.
  - The two JRES asset catalogs (tilemaps and images) are merged by
    `mergeJRES`. The winner's entries are kept as they are. A loser entry
    that is not a tilemap, and whose content the catalog already holds, is
    dropped. Every other loser entry, every loser tilemap included, is
    added, with a free display name and a free id. Finally the tilesets of
    the added tilemaps are pointed at renamed tiles.
- **Skill map parsing** (`skillmap/src/lib/skillMapParser.ts`). A
  markdown-like page is cut into sections, one per `#`, `##` or `###`
  header line, each with `- key: value` attributes
  (`getSectionsFromText`). Each `##` section and the sections after it
  become one map of activity and reward nodes (`buildMapFromSections`).
  A map fails on:
  - a repeated id;
  - an unknown `next` id;
  - a loop reachable from the first node.

  A `#` section supplies the page metadata (`parseSkillMap`).

Each operation of the source that builds its result in a loop over
statements is a Dafny `method`, proved equal to a function that states its
result:

- `JresMerge.MergeJRES` equals `JresMerge.Merge`.
- `Sections.GetSectionsFromText` equals `Sections.SectionsOf`.
- `SkillMapGraph.BuildMapFromSections` equals `SkillMapGraph.BuildMap`.
- `SkillMapGraph.CheckForLoopsRecursive` equals `SkillMapGraph.Explore`.
- `SkillMapParser.ParseSkillMap` equals `SkillMapParser.Parse`.
- `Inflate.InflateSkillMap` equals `Inflate.MapHeaderOf`.

The lemmas then state what those functions guarantee. One loop is a
function instead: `parseList` fills a dictionary with
`parts.forEach(p => map[p] = p)` (`skillMapParser.ts:307`), a one-line
callback that only records each item. It is modelled as the fold
`Inflate.Distinct`, inside the functions that use it.

Each `error(...)` of the parser is a `Failure` of `ParseError`. So is each
place where the source throws a TypeError on input it does not expect:

- A page with no `##` section reads `sections[-1]`, which is `NoMapHeader`.
- A map with no node has no root, which is `EmptyMap`.
- A `required` part that its pattern does not match is
  `MalformedRequirement`.
- A winner catalog with no `"*"` entry at all is `MissingDefaults`.
  A `"*"` entry that is a plain string, or an object without a
  `mimeType`, does not fail: the default MIME type is then absent
  (`undefined`), and a plain loser entry is carried with no MIME type
  (`JresMergeExamples.PlainDefaultsMerge`).

An entry's content key is `mimeType + isTile + valueString`, evaluated as
JavaScript does. With a MIME type it is a string: the type, `true` or
`false`, then the data (`undefined` when absent). Without one,
`undefined + isTile` is the number `NaN`, so the key is `"NaN"` followed by
the data, whatever the tile flag. An untyped tile and a plain loser string
with the same data therefore count as duplicates
(`JresMergeExamples.UntypedTileDuplicatesPlain`).

The two regular expressions of `getSectionsFromText` and the one of
`inflateSkillMap` are written out as string functions. Each picks the
match a backtracking engine picks, including where the engine backs off
one character. For example, a line `##` is a `#` section headed `#`.

Behaviours of the code that the model keeps, because it follows the code:

- **Display names can repeat.** A loser entry's display name is only
  marked as taken when it had to be renamed. Two loser entries with the
  same new name therefore both keep it (`JresMergeExamples.DisplayNamesNotUnique`),
  although the comment at `codeCarryover.ts:133` says that display names
  need to be unique.
- **A loser entry can be overwritten.** The same holds for ids. A loser
  entry kept under its own key does not mark that key as taken. A later
  loser entry that has to be renamed can get that key and overwrite it
  (`JresMergeExamples.LoserEntryOverwritten`).
- **Loser tilemaps are never deduplicated.** Neither the winner's tilemaps
  (`codeCarryover.ts:77`) nor the loser's (`codeCarryover.ts:155`) have
  their content registered. A loser tilemap identical to a winner tilemap
  is therefore carried as a second copy under a new id
  (`JresMergeExamples.TilemapNotDeduplicated`).
- **A tilemap can point at the wrong tile.** A kept entry's content is
  registered under its original loser key, not the id it was written
  under. A later duplicate of a renamed tile is therefore redirected to the
  winner's tile of that key, whose pixels differ
  (`JresMergeExamples.TileRedirectedToWinner`).
- **The earlier project is the first finished one.** The carryover takes
  the first finished state in the order `lookupPreviousActivityStates`
  returns them (`CodeCarryover.FirstFinished`). That order is not part of
  this model, so whether this is the most recent earlier activity is not
  stated.
- **Attribute values are trimmed.** A value of only whitespace is still
  stored, as the empty string (`Sections.BlankValueIsStored`).
- **A trailing comma in `required` fails.** The empty part matches no
  pattern (`Inflate.EmptyRequirementFails`).
- **A `#` section inside a map is also a node of that map**, and it still
  sets the page metadata (`SkillMapParser.OneMap`).
- **The last map is always built.** The test
  `start > 0 || parsed.length === 0` holds whenever a `##` section
  exists.
- **A node the root does not reach is not an error.** The source only
  warns about it.

## Model

| member | source | states |
|---|---|---|
| CodeCarryover.FirstFinished | skillmap/src/lib/codeCarryover.ts:10-11 | the position of the first state that is completed with `maxSteps === currentStep`; no earlier state is; none exactly when no state is |
| CodeCarryover.CarryoverHeaders | skillmap/src/lib/codeCarryover.ts:7-13 | the carryover goes ahead exactly when both header ids are non-empty; the previous one is that of the first finished state |
| CodeCarryover.FirstFinishedDecides | skillmap/src/lib/codeCarryover.ts:10-13 | a first finished state without a header id stops the carryover, even when a later finished state has one |
| CodeCarryover.TakeFile | skillmap/src/lib/codeCarryover.ts:27-29 | one main file is taken from the chosen side (absent there, absent in the result); every other file is unchanged |
| CodeCarryover.MergedFiles | skillmap/src/lib/codeCarryover.ts:24-29 | the three main files come from the previous project when carrying over code and from the new one otherwise; every other file is the new project's |
| CodeCarryover.MergeKeepsCatalog | skillmap/src/lib/codeCarryover.ts:30-35 | a successful catalog merge keeps every winner entry unchanged, with the winner's keys first |
| CodeCarryover.MergeProjectCodeFails | skillmap/src/lib/codeCarryover.ts:24-36 | rebuilding fails exactly when a merge with both catalogs present has a winner with no `"*"` entry at all; a plain-string `"*"` does not fail |
| CodeCarryover.MergeProjectCodeKeepsWinnerAssets | skillmap/src/lib/codeCarryover.ts:24-36 | the rebuilt project has the merged text files, and both of the winner's catalogs survive entry for entry (winner: previous project when carrying over code) |
| CodeCarryover.MergeWithEmptyCatalogs | skillmap/src/lib/codeCarryover.ts:30-41 | when the loser has no catalogs, the winner's catalogs come through unchanged |
| Jres.Put | skillmap/src/lib/codeCarryover.ts:169-174 | an object assignment: a new key goes last in the key order, an existing key keeps its place; the catalog stays well formed |
| JresMerge.UniqueName | skillmap/src/lib/codeCarryover.ts:133-141 | a taken non-empty name becomes `name + i` for the least free `i`, and is then not taken; any other name is kept |
| JresMerge.UniqueId | skillmap/src/lib/codeCarryover.ts:143-153 | the resolved id is never taken; a free key is kept; a taken key gets the least free numeric suffix |
| JresMerge.Carried | skillmap/src/lib/codeCarryover.ts:159-167 | a kept loser entry is written as an object carrying the given display name |
| JresMerge.CarriedFields | skillmap/src/lib/codeCarryover.ts:159-167 | field by field: data and MIME type read as in the loser entry (a plain string: its text, of the default MIME type), the display name is the new one; an object keeps its tile flag, tileset and other fields, and its id is replaced by the resolved one only when non-empty; a plain string gets no tile flag, tileset, id or other field |
| JresMerge.NameToUseByKind | skillmap/src/lib/codeCarryover.ts:113-131 | a non-empty display name is kept; otherwise an image gets the tile or image name, a tilemap `"tilemap"`, an animation the animation name, and any other kind keeps its own; a known kind always ends up named |
| JresMerge.UniqueNameSuffix | skillmap/src/lib/codeCarryover.ts:134-140 | a taken name becomes the name with some number appended, every smaller number giving a taken name |
| JresMerge.UniqueIdSuffix | skillmap/src/lib/codeCarryover.ts:144-150 | a taken key becomes the key with some number appended, every smaller number giving a taken id |
| JresMerge.KeepEntry | skillmap/src/lib/codeCarryover.ts:113-174 | writing a kept entry keeps the catalog and the held-back tilemaps well formed; what it writes is `JresMergeProps.KeptEntryWritten` |
| JresMerge.FoldEntry | skillmap/src/lib/codeCarryover.ts:84-175 | one loser step keeps the catalog and the held-back tilemaps well formed; what it writes is `JresMergeProps.KeptEntryWritten` and `JresMergeProps.DroppedEntryKeepsState` |
| JresMerge.FoldLoser | skillmap/src/lib/codeCarryover.ts:84-175 | the loser pass keeps the catalog and the held-back tilemaps well formed; what it adds is `JresMergeProps.FoldLoserFromLoser` and `JresMergeProps.KeptEntryStep` |
| JresMerge.RemapTileset | skillmap/src/lib/codeCarryover.ts:180 | every tile reference is replaced by its rename when it has a non-empty one and is kept otherwise; the length is kept |
| JresMerge.RemapTilesetAt | skillmap/src/lib/codeCarryover.ts:180 | each reference of a remapped tileset is the reference in the same place, looked up in the renames |
| JresMerge.FixTilemaps | skillmap/src/lib/codeCarryover.ts:177-182 | writing the held-back tilemaps keeps the catalog well formed |
| JresMerge.Folded | skillmap/src/lib/codeCarryover.ts:52-175 | the state after the loser pass is well formed; its content is `JresMergeProps.FoldedExtends` and `JresMergeProps.FoldLoserFromLoser` |
| JresMerge.MergeBoth | skillmap/src/lib/codeCarryover.ts:43-184 | the merged catalog has unique keys, each with an entry; its content is `JresMergeProps.MergeKeepsWinner` and `JresMergeProps.MergeAddsCarried` |
| JresMerge.LeastFreeSuffix | skillmap/src/lib/codeCarryover.ts:135-138 | the suffix search loop returns the least `i` with `base + i` free |
| JresMerge.ReserveName | skillmap/src/lib/codeCarryover.ts:133-141 | the name is made unique as `UniqueName` says, and only a renamed name is marked taken |
| JresMerge.ReserveId | skillmap/src/lib/codeCarryover.ts:143-153 | the id is made unique as `UniqueId` says, only a renamed id is marked taken, and `renamed` says whether the key was taken |
| JresMerge.CarryEntry | skillmap/src/lib/codeCarryover.ts:87-111 | one iteration of the loser loop computes exactly the step `FoldEntry`: a duplicate is dropped (a duplicate tile's reference is mapped) |
| JresMerge.KeepLoserEntry | skillmap/src/lib/codeCarryover.ts:113-174 | naming, uniquing, registering and writing a kept entry computes exactly `KeepEntry` |
| JresMerge.FoldLoserEntries | skillmap/src/lib/codeCarryover.ts:84-175 | the loop over the loser's keys computes exactly the fold `FoldLoser`, skipping `"*"` |
| JresMerge.IndexWinnerEntries | skillmap/src/lib/codeCarryover.ts:56-81 | the loop over the winner's keys computes exactly the first pass `IndexWinner`, skipping `"*"` |
| JresMerge.WriteTilemaps | skillmap/src/lib/codeCarryover.ts:177-182 | the loop over the held-back tilemaps computes exactly the third pass `FixTilemaps` |
| JresMerge.MergeJRES | skillmap/src/lib/codeCarryover.ts:39-185 | the three loops compute exactly `Merge`: an absent side returns the other, a winner with no `"*"` entry fails, otherwise index, fold and fix tilemaps, with the default MIME type absent when `"*"` is a plain string or has none |
| JresMergeProps.IndexWinnerIds | skillmap/src/lib/codeCarryover.ts:56-60 | the first pass marks every winner key except `"*"` as a taken id |
| JresMergeProps.KeptIdIsFresh | skillmap/src/lib/codeCarryover.ts:143-153 | a kept loser entry never lands under a winner key |
| JresMergeProps.CarriedIsNamed | skillmap/src/lib/codeCarryover.ts:113-131 | a kept image, tile, tilemap or animation always ends up with a non-empty display name |
| JresMergeProps.FoldEntryExtends | skillmap/src/lib/codeCarryover.ts:84-175 | one loser step keeps the winner's entries and key order, keeps winner keys taken, and adds only named objects |
| JresMergeProps.FoldLoserExtends | skillmap/src/lib/codeCarryover.ts:84-175 | the whole loser pass keeps that invariant |
| JresMergeProps.RemappedAll | skillmap/src/lib/codeCarryover.ts:177-182 | the remapped tilemaps are exactly the held-back ones, each with its tileset remapped |
| JresMergeProps.FixTilemapsResult | skillmap/src/lib/codeCarryover.ts:177-182 | the third pass writes every held-back tilemap, remapped, under its key, after the existing keys, and changes nothing else |
| JresMergeProps.FixTilemapsKeepsKeys | skillmap/src/lib/codeCarryover.ts:177-182 | the third pass keeps the keys already present, in their order, in front |
| JresMergeProps.FoldedExtends | skillmap/src/lib/codeCarryover.ts:52-175 | after the loser pass the state keeps the winner, started from the indexed winner |
| JresMergeProps.MergeKeepsWinner | skillmap/src/lib/codeCarryover.ts:39-185 | the merged catalog holds every winner entry unchanged with the winner's keys first, and every added entry is a named object |
| JresMergeProps.MergeKeepsWinnerOrder | skillmap/src/lib/codeCarryover.ts:39-185 | from the loser-pass invariant: the winner's keys lead the merged key order |
| JresMergeProps.MergeKeepsWinnerEntries | skillmap/src/lib/codeCarryover.ts:39-185 | from the loser-pass invariant: every winner entry is in the merged catalog, unchanged |
| JresMergeProps.MergeAddsNamed | skillmap/src/lib/codeCarryover.ts:113-131 | from the loser-pass invariant: every entry the merge added is an object, named when of a known kind |
| JresMergeProps.MergeRemapsCarriedTilemaps | skillmap/src/lib/codeCarryover.ts:177-182 | every held-back tilemap ends up in the result under its resolved id, its tileset pointed through the final renames |
| JresMergeProps.KeptEntryWritten | skillmap/src/lib/codeCarryover.ts:113-174 | a loser entry that is not a duplicate is written as `Carried` gives it (with its kind's name made unique) under its resolved id, which was free: into the held-back tilemaps when a tilemap, into the catalog otherwise, the other side unchanged; the id is marked taken exactly when it was renamed, and a non-tilemap fingerprint is registered under the original loser key |
| JresMergeProps.KeptIsCarriedLoserEntry | skillmap/src/lib/codeCarryover.ts:159-174 | the entry written for a kept loser key is a carried loser entry, and a tilemap exactly when the loser entry is one |
| JresMergeProps.KeepEntryFromLoser | skillmap/src/lib/codeCarryover.ts:113-174 | keeping a loser entry keeps true that every added catalog entry and every held-back tilemap is a carried loser entry under that key |
| JresMergeProps.FoldEntryFromLoser | skillmap/src/lib/codeCarryover.ts:84-174 | one loser step, dropping or keeping, keeps that invariant |
| JresMergeProps.FoldLoserFromLoser | skillmap/src/lib/codeCarryover.ts:84-175 | the whole loser pass keeps that invariant |
| JresMergeProps.MergeAddsCarried | skillmap/src/lib/codeCarryover.ts:159-182 | every entry of the merged catalog that is not the winner's is some loser entry as `Carried` writes it under that key, its tileset pointed through the tile renames when it is a tilemap |
| JresMergeProps.MergeKeepsFoldedKeys | skillmap/src/lib/codeCarryover.ts:169-182 | every key the loser pass wrote, into the catalog or among the held-back tilemaps, is a key of the merged catalog |
| JresMergeProps.KeptEntryStep | skillmap/src/lib/codeCarryover.ts:106-174 | a loser entry that is not a duplicate when its turn comes is written by its step under its resolved id |
| JresMergeProps.FoldLoserDropsAll | skillmap/src/lib/codeCarryover.ts:106-111 | while every loser entry is a duplicate, the loser pass only records tile renames |
| JresMergeProps.DroppedEntryKeepsState | skillmap/src/lib/codeCarryover.ts:106-111 | a duplicate changes neither the catalog, the bookkeeping nor the held-back tilemaps |
| JresMergeProps.MergeOfDuplicatesIsWinner | skillmap/src/lib/codeCarryover.ts:84-111 | a loser whose every entry the winner already holds leaves the winner unchanged |
| JresMergeProps.MergeOfEmptyLoserIsWinner | skillmap/src/lib/codeCarryover.ts:84-85 | a loser with nothing but `"*"` leaves the winner unchanged |
| JresMergeProps.TileRefInjective | skillmap/src/lib/codeCarryover.ts:109 | different keys have different tile references |
| JresMergeProps.RenameSurvives | skillmap/src/lib/codeCarryover.ts:106-153 | a tile rename recorded for a key stays as it is while no later loser step is for that key |
| JresMergeProps.DuplicateTileRedirected | skillmap/src/lib/codeCarryover.ts:108-110 | every reference to a duplicate loser tile resolves to the tile under the key its content is registered to |
| JresMergeProps.RenamedTileRedirected | skillmap/src/lib/codeCarryover.ts:150-152 | every reference to a loser tile kept under a new id resolves to that id |
| JresMergeExamples.TilemapNotDeduplicated | skillmap/src/lib/codeCarryover.ts:155-157 | no tilemap content is registered (here, nor for the winner at line 77), so a loser tilemap identical to the winner's tilemap under the same key is added again, under that key with a `0` appended, named `tilemap` |
| JresMergeExamples.DisplayNamesNotUnique | skillmap/src/lib/codeCarryover.ts:133-141 | two loser objects with one free display name both reach the merged catalog under that name |
| JresMergeExamples.LoserEntryOverwritten | skillmap/src/lib/codeCarryover.ts:143-174 | a loser holding `a0` and then `a`, merged into a winner holding `a`, loses its `a0` entry to the renamed `a` |
| JresMergeExamples.TileRedirectedToWinner | skillmap/src/lib/codeCarryover.ts:106-157 | a loser tile renamed to `t0` and its duplicate `u`: the merged tilemap that used `u` points at the winner's tile `t`, whose data differs |
| JresMergeExamples.TileMergeEntries | skillmap/src/lib/codeCarryover.ts:106-182 | the merged catalog of that example: the winner's entries, the renamed tile under `t0`, and the tilemap pointed at `t` |
| JresMergeExamples.UntypedTileDuplicatesPlain | skillmap/src/lib/codeCarryover.ts:62-111 | a winner with a plain `"*"` and an untyped tile `a` holding `d`, merged with a loser holding the plain string `d`: the loser entry is a duplicate and the merge is the winner unchanged |
| JresMergeExamples.PlainDefaultsMerge | skillmap/src/lib/codeCarryover.ts:52-167 | a winner whose `"*"` is a plain string merges without failing, and a plain loser entry is carried with no MIME type and no display name |
| Suffix.FirstFree | skillmap/src/lib/codeCarryover.ts:135-138 | the search ends: the least suffix at least `from` that is free, with every smaller one taken |
| Suffix.FirstFreeUnique | skillmap/src/lib/codeCarryover.ts:146-149 | the free suffix with every smaller one taken is the one the search finds |
| Suffix.TakenBound | skillmap/src/lib/codeCarryover.ts:136-137 | no more suffixes can be taken than there are taken strings, so the search stops |
| Suffix.SuffixInjective | skillmap/src/lib/codeCarryover.ts:139 | different suffixes give different strings |
| Suffix.SuffixedEndsInDigit | skillmap/src/lib/codeCarryover.ts:150 | a suffixed id is longer than the key and ends in a digit |
| Text.Trim | skillmap/src/lib/skillMapParser.ts:303 | only whitespace is removed, and only at the two ends: the result is the text after its leading whitespace, followed in the text by nothing but whitespace; it starts and ends with a non-whitespace character, and is empty exactly when the text is all whitespace |
| Text.TrimIdempotent | skillmap/src/lib/skillMapParser.ts:83 | trimming a trimmed value changes nothing |
| Text.TrimLower | skillmap/src/lib/skillMapParser.ts:303 | trimming and lower-casing can be done in either order |
| Text.Lower | skillmap/src/lib/skillMapParser.ts:85 | lower-casing maps every character and keeps the length |
| Text.LowerIdempotent | skillmap/src/lib/skillMapParser.ts:303 | lower-casing twice is lower-casing once |
| Text.LeadingWhitespace | skillmap/src/lib/skillMapParser.ts:60 | the greedy `\s*`: all whitespace up to the first non-whitespace character |
| Text.LineTerminatorIsWhitespace | skillmap/src/lib/skillMapParser.ts:60 | every character `.` rejects is one `\s` accepts |
| Text.Split | skillmap/src/lib/skillMapParser.ts:43 | at least one piece, and no piece holds the separator |
| Text.JoinSplit | skillmap/src/lib/skillMapParser.ts:43 | joining the pieces gives the text back |
| Text.SplitLength | skillmap/src/lib/skillMapParser.ts:175 | one piece more than there are separators |
| Text.NatStr | skillmap/src/lib/codeCarryover.ts:139 | the decimal rendering of a suffix is a non-empty string of digits |
| Text.NatStrInjective | skillmap/src/lib/codeCarryover.ts:150 | different numbers render differently |
| Text.DigitsValueNatStr | skillmap/src/lib/skillMapParser.ts:183 | reading back a rendered number gives the number |
| Sections.Hashes | skillmap/src/lib/skillMapParser.ts:60 | the greedy `#+`: all `#` characters up to the first other character |
| Sections.MatchHeaderShape | skillmap/src/lib/skillMapParser.ts:60 | a header match is `#`s, whitespace, then a non-empty header without line terminators ending the line |
| Sections.MatchKeyIsMatch | skillmap/src/lib/skillMapParser.ts:78 | the bullet function finds a match exactly when the pattern has one: a bullet, whitespace, an optional colon-free key ended by a colon, and a rest without a line terminator |
| Sections.MatchHeaderIsMatch | skillmap/src/lib/skillMapParser.ts:60-62 | the header function finds a match exactly when the pattern has one |
| Sections.NoMatchWithoutHash | skillmap/src/lib/skillMapParser.ts:59-60 | a line not starting with `#` has no header match |
| Sections.MatchAfterWhitespace | skillmap/src/lib/skillMapParser.ts:60 | the pattern matches with the header starting after the greedy whitespace when the rest is a line |
| Sections.MatchOnLastWhitespace | skillmap/src/lib/skillMapParser.ts:60 | a line of `#`s and whitespace matches with the last whitespace character as header |
| Sections.LastWhitespaceShape | skillmap/src/lib/skillMapParser.ts:60 | that header has the header shape |
| Sections.OnlyHashes | skillmap/src/lib/skillMapParser.ts:60 | a line of two or more `#`s is headed by its last `#`, with one `#` fewer |
| Sections.MatchShape | skillmap/src/lib/skillMapParser.ts:60 | any match of the pattern has the header shape |
| Sections.NoMatchWithTerminator | skillmap/src/lib/skillMapParser.ts:60 | a line terminator after the whitespace leaves no match |
| Sections.NoMatchEndingInTerminator | skillmap/src/lib/skillMapParser.ts:60 | a line ending in a line terminator has no match |
| Sections.HeaderLineMatches | skillmap/src/lib/skillMapParser.ts:59-74 | `#`s, whitespace and a header read as exactly that header and number of `#`s |
| Sections.FirstColon | skillmap/src/lib/skillMapParser.ts:78 | the first colon, or the end |
| Sections.MatchKey | skillmap/src/lib/skillMapParser.ts:78 | a bullet match is a bullet, whitespace and either a key, a colon and the value, or a value alone |
| Sections.MatchBulletText | skillmap/src/lib/skillMapParser.ts:78 | the same after the bullet and the whitespace |
| Sections.KeyLineMatches | skillmap/src/lib/skillMapParser.ts:78-87 | a bullet line with a colon-free key reads as that key and the rest of the line |
| Sections.KeyTextMatches | skillmap/src/lib/skillMapParser.ts:78 | after the bullet prefix, a key, a colon and a value read as that key and value |
| Sections.PlainLineMatches | skillmap/src/lib/skillMapParser.ts:78-90 | a bullet line without a colon reads as a value with no key |
| Sections.GetSectionsFromText | skillmap/src/lib/skillMapParser.ts:42-107 | the loop over lines computes exactly `SectionsOf`, the fold of one turn per line followed by the final push |
| Sections.ScanLineKeepsGood | skillmap/src/lib/skillMapParser.ts:51-93 | one turn keeps every stored key non-empty, lower case and colon-free and every stored value trimmed |
| Sections.SectionsAreGood | skillmap/src/lib/skillMapParser.ts:77-106 | every section's keys are non-empty, lower case and colon-free, and its values trimmed |
| Sections.ScanHeadsFollowLines | skillmap/src/lib/skillMapParser.ts:51-97 | the sections pushed and open follow the header lines one for one |
| Sections.ScanLineHeads | skillmap/src/lib/skillMapParser.ts:59-74 | a turn adds a section exactly for a header line, with its kind and header |
| Sections.SectionsFollowHeaderLines | skillmap/src/lib/skillMapParser.ts:42-107 | one section per header line, in order, with that line's kind and header |
| Sections.PreambleIgnored | skillmap/src/lib/skillMapParser.ts:77 | lines before the first header line change nothing |
| Sections.SectionsIgnorePreamble | skillmap/src/lib/skillMapParser.ts:77-92 | a text's sections do not depend on the lines before its first header |
| Sections.BulletIsNotHeader | skillmap/src/lib/skillMapParser.ts:52-62 | a bullet line is neither blank nor a header |
| Sections.ValueContinuesOnNewLine | skillmap/src/lib/skillMapParser.ts:52-90 | a blank line and a keyless bullet continue the value on a new line |
| Sections.BlankValueIsStored | skillmap/src/lib/skillMapParser.ts:78-103 | a key with a whitespace-only value is stored with the empty string |
| Inflate.NameOrHeader | skillmap/src/lib/skillMapParser.ts:165 | the `name` attribute when non-empty, the header otherwise |
| Inflate.IsTrue | skillmap/src/lib/skillMapParser.ts:263-276 | only a non-empty value can be a yes-token |
| Inflate.IsFalse | skillmap/src/lib/skillMapParser.ts:278-291 | only a non-empty value can be a no-token |
| Inflate.NeverTrueAndFalse | skillmap/src/lib/skillMapParser.ts:263-291 | no value is both a yes-token and a no-token |
| Inflate.TokensDisjoint | skillmap/src/lib/skillMapParser.ts:266-289 | the two token lists share no token |
| Inflate.TokensIgnoreCaseAndSpace | skillmap/src/lib/skillMapParser.ts:266-281 | a token is recognised after lower-casing and trimming |
| Inflate.Clean | skillmap/src/lib/skillMapParser.ts:303 | a cleaned part is a list item, and empty exactly when the part is whitespace |
| Inflate.ListItemTrimmed | skillmap/src/lib/skillMapParser.ts:303 | a list item is its own trim |
| Inflate.CleanAll | skillmap/src/lib/skillMapParser.ts:303 | every part is cleaned, in place |
| Inflate.NonBlank | skillmap/src/lib/skillMapParser.ts:303 | the filter keeps exactly the non-empty strings |
| Inflate.CleanParts | skillmap/src/lib/skillMapParser.ts:303 | the kept items are list items, exactly the non-empty cleaned parts |
| Inflate.CleanPartsInOrder | skillmap/src/lib/skillMapParser.ts:303 | cleaning and filtering in one pass gives the source's `map` then `filter`: the non-empty cleaned parts in their order |
| Inflate.FirstIndex | skillmap/src/lib/skillMapParser.ts:307-308 | the position of an item's first occurrence: it holds the item, and no earlier position does |
| Inflate.FirstIndexAppend | skillmap/src/lib/skillMapParser.ts:307 | a later part moves no earlier item's first occurrence |
| Inflate.Distinct | skillmap/src/lib/skillMapParser.ts:305-308 | the same items, without repeats, ordered by where each first occurs |
| Inflate.ParseList | skillmap/src/lib/skillMapParser.ts:301-311 | nothing for an empty list; otherwise, with duplicates, exactly the non-empty trimmed, lower-cased parts in order; without, those items once each, ordered by first occurrence |
| Inflate.CleanPartsCount | skillmap/src/lib/skillMapParser.ts:303-310 | with duplicates kept, one item per part that is not blank |
| Inflate.DigitRun | skillmap/src/lib/skillMapParser.ts:177 | the greedy `\d+` |
| Inflate.SpaceRun | skillmap/src/lib/skillMapParser.ts:177 | the greedy ` +` |
| Inflate.Requirement | skillmap/src/lib/skillMapParser.ts:177-191 | a failing part is named in its error; when a part fails is stated by `Inflate.RequirementFailsExactly` |
| Inflate.RequirementFailsExactly | skillmap/src/lib/skillMapParser.ts:175-177 | a part fails exactly when `^\s*(?:(\d+) +)?(.+)$` has no match: no split into whitespace, an optional group of digits and spaces, and a non-empty rest of the line |
| Inflate.SucceedingRequirementMatches | skillmap/src/lib/skillMapParser.ts:177 | a part that reads has a match of the pattern |
| Inflate.MatchedRequirementSucceeds | skillmap/src/lib/skillMapParser.ts:177 | a part with a match of the pattern reads |
| Inflate.MatchHasNoTerminator | skillmap/src/lib/skillMapParser.ts:177 | after the leading whitespace of a match, no line terminator follows |
| Inflate.TagBackOff | skillmap/src/lib/skillMapParser.ts:177-184 | digits and two or more spaces (`"3  "`): the engine gives back one space as the rest, so the part is a tag prerequisite with the empty tag |
| Inflate.DigitsThenSpaces | skillmap/src/lib/skillMapParser.ts:177-184 | the same after the leading whitespace |
| Inflate.DigitsThenOneSpace | skillmap/src/lib/skillMapParser.ts:177-190 | digits and one space (`"3 "`): the group cannot match, so the part is a map prerequisite named by the digits |
| Inflate.DigitsThenSpace | skillmap/src/lib/skillMapParser.ts:177-190 | the same after the leading whitespace |
| Inflate.DigitsRunIntoName | skillmap/src/lib/skillMapParser.ts:177-190 | digits running into a name (`"12abc"`): the group needs a space, so the whole part is a map prerequisite |
| Inflate.RequirementSkipsWhitespace | skillmap/src/lib/skillMapParser.ts:177 | leading whitespace before a non-whitespace character is skipped |
| Inflate.TagRequirement | skillmap/src/lib/skillMapParser.ts:177-184 | `n tag` reads as a tag prerequisite for `n` activities tagged `tag` |
| Inflate.TagRest | skillmap/src/lib/skillMapParser.ts:177-184 | digits, a space and a tag read as that tag and number |
| Inflate.MapRequirement | skillmap/src/lib/skillMapParser.ts:186-190 | a name not starting with a digit reads as a map prerequisite |
| Inflate.EmptyRequirementFails | skillmap/src/lib/skillMapParser.ts:175-179 | an empty part, as a trailing comma gives, fails |
| Inflate.Collect | skillmap/src/lib/skillMapParser.ts:111 | all values when every result succeeds, otherwise the first failure |
| Inflate.Requirements | skillmap/src/lib/skillMapParser.ts:175-177 | every part is read in place |
| Inflate.AllowsCarryoverUnlessFalse | skillmap/src/lib/skillMapParser.ts:171 | carryover is allowed unless the attribute is a no-token |
| Inflate.MapHeaderOf | skillmap/src/lib/skillMapParser.ts:162-196 | the map id is the lower-cased header, the display name the `name` or the header, description and completion URL the attributes, and carryover allowed unless a no-token; without `required` there are no prerequisites; with it, the map fails exactly when a part does, and otherwise has the parts' prerequisites |
| Inflate.InflateSkillMap | skillmap/src/lib/skillMapParser.ts:162-196 | the loop over the parts computes exactly `MapHeaderOf` |
| Inflate.EditorOf | skillmap/src/lib/skillMapParser.ts:244-255 | no editor without the attribute; `py` and `js` in any case; `blocks` for anything else |
| Inflate.InflateActivity | skillmap/src/lib/skillMapParser.ts:224-261 | an activity succeeds exactly with a `url` and a `tutorial` type; the missing `url` is reported first; a success has the lower-cased header as id, the `url`, the `name` or the header as display name, the image URL and description attributes, `next` and `tags` as parsed lists, carryover unless a no-token, and the editor the attribute names |
| Inflate.InflateMapNode | skillmap/src/lib/skillMapParser.ts:198-222 | a `reward` or `completion` kind gives a reward, anything else an activity; the id is the lower-cased header, the display name the `name` attribute or else the header, the image URL the `imageurl` attribute, and `next` the parsed list |
| Inflate.InflateMetadata | skillmap/src/lib/skillMapParser.ts:293-299 | the title is the name or the header; description and info URL are the attributes |
| SkillMapGraph.NodeResults | skillmap/src/lib/skillMapParser.ts:111 | every section is inflated, in place |
| SkillMapGraph.Activities | skillmap/src/lib/skillMapParser.ts:123-129 | filing fails only with a duplicate id in this map; otherwise the keys are exactly the nodes' ids |
| SkillMapGraph.ActivitiesFileNode | skillmap/src/lib/skillMapParser.ts:123-129 | a node is filed under its own id |
| SkillMapGraph.ActivitiesFileNodes | skillmap/src/lib/skillMapParser.ts:123-129 | every node is filed under its own id |
| SkillMapGraph.ActivitiesFailOnRepeat | skillmap/src/lib/skillMapParser.ts:123-126 | filing fails exactly when two nodes share an id |
| SkillMapGraph.UnknownIn | skillmap/src/lib/skillMapParser.ts:132-133 | nothing exactly when every id is known; otherwise an unknown id |
| SkillMapGraph.FirstUnknown | skillmap/src/lib/skillMapParser.ts:131-136 | nothing exactly when every `next` id of every node is known; otherwise an unknown one |
| SkillMapGraph.GraphOf | skillmap/src/lib/skillMapParser.ts:131-136 | the graph has the filed ids as vertices and each node's `next` ids as its edges |
| SkillMapGraph.PathGrows | skillmap/src/lib/skillMapParser.ts:151-152 | a step of the search leaves fewer unvisited ids, so the search ends |
| SkillMapGraph.ExploreAllIsAny | skillmap/src/lib/skillMapParser.ts:155-157 | the search over the successors finds a loop exactly when the search from one of them does |
| SkillMapGraph.ExploreFindsWalk | skillmap/src/lib/skillMapParser.ts:150-157 | a loop the search reports is a walk from the root that comes back to a node on its path |
| SkillMapGraph.WalkIsFound | skillmap/src/lib/skillMapParser.ts:150-157 | every such walk is reported by the search |
| SkillMapGraph.CheckForLoopsRecursive | skillmap/src/lib/skillMapParser.ts:150-158 | the recursive search with a copied path reports a loop exactly when `Explore` does |
| SkillMapGraph.LinkedIsClosed | skillmap/src/lib/skillMapParser.ts:109-136 | after the checks, the nodes are the inflated sections, each filed under its id with no other entries, and every edge leads to a node |
| SkillMapGraph.BuildMapRejectsExactlyLoops | skillmap/src/lib/skillMapParser.ts:138-151 | a checked map fails exactly when a walk from the first node comes back to a node on it |
| SkillMapGraph.BuildMapSuccess | skillmap/src/lib/skillMapParser.ts:109-148 | a built map has the inflated header, the first node as root, every node filed under its id, no other entries, and no unknown `next` id |
| SkillMapGraph.BuildMapErrors | skillmap/src/lib/skillMapParser.ts:110-121 | a map with no nodes fails as empty, and a bad header fails with its own error |
| SkillMapGraph.DuplicateIsRejected | skillmap/src/lib/skillMapParser.ts:123-126 | two nodes with one id make the map fail with a duplicate error naming the map |
| SkillMapGraph.ClosedGraph | skillmap/src/lib/skillMapParser.ts:131-136 | with every `next` id known, every edge of the graph leads to a vertex |
| SkillMapGraph.InflateNodes | skillmap/src/lib/skillMapParser.ts:111 | the loop inflates every section, stopping at the first failure |
| SkillMapGraph.FileActivities | skillmap/src/lib/skillMapParser.ts:123-129 | the loop computes exactly the filing `Activities` |
| SkillMapGraph.CheckNextIds | skillmap/src/lib/skillMapParser.ts:131-136 | the nested loops compute exactly `FirstUnknown` |
| SkillMapGraph.BuildMapFromSections | skillmap/src/lib/skillMapParser.ts:109-159 | the method computes exactly `BuildMap` |
| SkillMapParser.Run | skillmap/src/lib/skillMapParser.ts:24-33 | the open `##` section comes before the sections read, and no map is built before one is open |
| SkillMapParser.ParseSkillMap | skillmap/src/lib/skillMapParser.ts:16-40 | the method computes exactly `Parse` |
| SkillMapParser.ParsePage | skillmap/src/lib/skillMapParser.ts:19-39 | the loop over sections and the last push compute exactly `ParseSections` |
| SkillMapParser.PushLastMap | skillmap/src/lib/skillMapParser.ts:35-39 | after a loop that ends in the state `Run` gives, adding the last map (or failing without a `##` section) completes `ParseSections` |
| SkillMapParser.OtherTurn | skillmap/src/lib/skillMapParser.ts:25-26 | a `#` section sets the metadata and a `###` section changes nothing |
| SkillMapParser.OpeningTurn | skillmap/src/lib/skillMapParser.ts:27-31 | the first `##` section opens a map |
| SkillMapParser.ClosingTurn | skillmap/src/lib/skillMapParser.ts:27-31 | a later `##` section builds the open map and opens its own |
| SkillMapParser.LastTurn | skillmap/src/lib/skillMapParser.ts:35-37 | after the loop the last map is built; without any `##` section the page fails |
| SkillMapParser.Doubles | skillmap/src/lib/skillMapParser.ts:27-31 | the positions found are `##` sections |
| SkillMapParser.DoublesIncrease | skillmap/src/lib/skillMapParser.ts:24-31 | the positions come in increasing order |
| SkillMapParser.LastMetadataIsLast | skillmap/src/lib/skillMapParser.ts:25-26 | the metadata is that of the last `#` section, and there is none without one |
| SkillMapParser.RunIsExpected | skillmap/src/lib/skillMapParser.ts:24-33 | after `n` sections the loop has built the map of each `##` section closed by the next one, and holds the last open one and the last metadata |
| SkillMapParser.ParseIsPageOf | skillmap/src/lib/skillMapParser.ts:16-40 | the loop's result equals the page described map by map |
| SkillMapParser.MapResultsAt | skillmap/src/lib/skillMapParser.ts:24-37 | the k-th map of the page is built from the k-th `##` section and the sections after it, up to the next `##` section or the end of the text; there is one map per `##` section |
| SkillMapParser.LastMap | skillmap/src/lib/skillMapParser.ts:35-37 | the last push completes the page |
| SkillMapParser.ParsedMaps | skillmap/src/lib/skillMapParser.ts:16-40 | a parsed page has one map per `##` section, each built from its own sections, and the metadata of the last `#` section |
| SkillMapParser.NoDoubleNoMap | skillmap/src/lib/skillMapParser.ts:22-36 | a text without a `##` section fails |
| SkillMapParser.OneMap | skillmap/src/lib/skillMapParser.ts:24-37 | a `##` section followed by no other makes one map of all following sections, `#` ones included |

## Left out

- The async body of `carryoverProjectCode` is not modelled: loading the two projects, and saving the new one. `CodeCarryover.CarryoverHeaders` models which two projects it works on. The earlier states come in as a parameter, because `lookupPreviousActivityStates` is not part of this model.
- `JSON.parse` and `JSON.stringify` are not modelled. Catalogs are held decoded. A catalog text that is not valid JSON is not modelled.
- pxt's constants (MIME types, namespaces, prefixes) are given pxt's values. The merge only relies on them being distinct.
- JresMerge.Carried: its own contract states only that the result is an object with the new display name; every other field is stated by `JresMerge.CarriedFields`.
- JresMerge.KeepEntry: its own contract states only that the catalogs stay well formed; what it writes is stated by `JresMergeProps.KeptEntryWritten`.
- JresMerge.FoldEntry: its own contract states only that the catalogs stay well formed; the keep branch is stated by `JresMergeProps.KeptEntryWritten`, the drop branch by `JresMergeProps.DroppedEntryKeepsState`.
- JresMerge.FoldLoser: its own contract states only well-formedness. `JresMergeProps.FoldLoserFromLoser` states that everything it adds is a carried loser entry, and `JresMergeProps.KeptEntryStep` that a loser entry that is not a duplicate is written at its step. The model does not prove that a key written at one step is still a key at the end of the pass (later steps can overwrite its entry but never remove it), so "every such loser entry reaches the merged catalog" is stated per step only.
- JresMerge.Folded: its own contract states only well-formedness; its content is stated by `JresMergeProps.FoldedExtends` and `JresMergeProps.FoldLoserFromLoser`.
- JresMerge.MergeBoth: its own contract states only well-formedness; the winner half is stated by `JresMergeProps.MergeKeepsWinner`, the added entries by `JresMergeProps.MergeAddsCarried` and `JresMergeProps.MergeKeepsFoldedKeys`.
- The regular-expression engine is not modelled. The three patterns are written out as string functions.
- `Text.Lower`: `toLowerCase` is modelled on ASCII letters only. Other letters keep their case.
- `Inflate.Requirement`: `parseInt` is modelled as an exact natural number. Digit strings above 2^53 lose precision in JavaScript.
- Inflate.Distinct: orders items by first occurrence, the insertion order of the source's dictionary. `Object.keys` lists integer-like items (such as `"2"`) first, in numeric order, so the order is the source's only for lists with no such item.
- Inflate.ParseList: without duplicates, the same order as `Inflate.Distinct`, with the same proviso for integer-like items.
- Object key order is modelled as insertion order, for `Object.keys` in `parseList`, `mergeJRES` and the catalogs. JavaScript puts integer-like keys first, in numeric order.
- Properties inherited from `Object.prototype` are not modelled. Examples are an activity id `constructor`, or a name or id looked up in the merge's dictionaries. The model treats such keys as absent.
- Nodes are values. A map's `activities` resolves each node's `next` ids. The source's `next` arrays of shared node objects, and the aliasing between them, are not modelled.
- The reachability pass is not modelled: the `reachable` dictionary and its `console.warn`. It has no effect on the result.
- The loop that sets `allowCodeCarryover` on activities is not modelled. It changes nothing, because every activity already has the field set.
- `test()` and `testMap` are not modelled; they are a manual entry point.
- The synchronized workspace wrapper is not modelled. It only stores projects.
