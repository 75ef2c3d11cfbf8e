# Verified model of the INTENS core algorithms

This project models parts of INTENS, an environment for engineering applications
in C++ with Python scripts beside it, and proves properties of the model with
Dafny 4.11. `dafny verify dfyconfig.toml` checks all of it.

| file | models |
|---|---|
| `Rfc1321.dfy`, `Md5.dfy`, `TestSuite.dfy` | the incremental MD5 class, the pure definition of RFC 1321 that it refines, and two values of its test suite |
| `Text.dfy` | splitting, joining, printing and parsing text |
| `Catalogue.dfy`, `Changelog.dfy` | the type catalogue of `create-changelogs.py`, read from CSV files or a database, and the diff that is written |
| `ReadBack.dfy`, `Convergence.dfy`, `Runs.dfy` | why a second run of that script has nothing to do |
| `References.dfy`, `DatabaseRows.dfy` | which parent, key and child every written reference reads back as, and what the rows of the database mean |
| `Versions.dfy`, `History.dfy` | changelog versions, and the directory over any history of runs |
| `TargetStreams.dfy` | the lookup of target streams for dotted names, which writes into the lists it reads |
| `StreamGraph.dfy` | clearing what depends on a stream, in a graph that may have cycles |
| `Cycles.dfy` | data pool cycles, the selected one, and the table of their names |
| `HelpText.dfy` | indexing a help file in one pass and loading a chapter by its offsets |
| `DbModified.dfy` | the two visitors that stamp data as loaded and find modified data |
| `ReportGen.dfy`, `ColorSet.dfy`, `DataSet.dfy`, `AppData.dfy` | the search for a free preview name, colour interpolation, label sets, version texts |
| `Examples.dfy` | single inputs with their results written out |

State that the program updates in place is kept in classes: MD5 contexts over
arrays, stored stream lists, streams with marks, the data pool, a file stream with
its flags, items with time stamps. Loops are loops with invariants, proved against
functions on values; the properties are lemmas about those functions. What the
program leaves open is a parameter: the order in which Python iterates a set or
lists a directory, the value of an uninitialised variable, what a stream answers
when it is asked, which files exist.

## What the code does beyond its comments

The model follows the code. Where that differs from what comments or names
promise, a lemma says exactly when.

- `MD5::update` takes a 32-bit length, and its loop index wraps around near the
  top: the loop stays inside the chunk and ends exactly below the bound of
  `Md5.ChunkFitsExactly`.
- The changelog script compares against the list of element types to decide
  whether to diff property types, so a database with property types alone is
  written again by every run (`Runs.SettlesExactly`, `Runs.LonePropertyType`).
- `getNextVersion` sorts names as strings; when a number outgrows the width of the
  names, the next run chooses the same version again (`Versions.VersionsAdvanceExactly`,
  `Versions.StuckAtNine`).
- The script never compares the children of known references, so a reference that
  the database moves to another child stays as it was
  (`References.ChildReadsBackExactly`).
- `inspectHelpText` never ends if the last chapter of a file has no body line, or
  if a keyword line has a space behind its last word; a chapter without a body in
  the middle shows the rest of the file (`Help.HelpText.InspectHelpText`,
  `Help.LoadIsExact`).
- `goCycle` answers true for negative numbers and moves nowhere
  (`Cycles.GoAnswersExactly`).
- A check writes the streams of enclosing names into the first stored list on its
  way, so `fixupItemStreams` depends on whether a check came before; the list stays
  as registered exactly if nothing else is registered along the path
  (`TargetStreams.LookupLeaks`, `TargetStreams.LeaksAfterAnyRun`).
- The visitor that stamps data stamps nothing if the data on the path do not exist
  yet, while the comparing visitor then judges the item where the path ends too
  early (`DbModified.LoadingSettles`, `DbModified.ModifiedExactly`).
- `getPosition` trims the query but not the stored texts, so empty values and
  values with blanks around them are never found (`DataSet.ValuesAreFound`).
- `VersionString` sorts wrongly where versions part at numbers of different widths
  above three digits, if the smaller one exceeds the first digits of the greater one
  (`AppData.TextOrderExactly`, `AppData.WideFails`). It writes no dot behind a
  component with a dash. Texts tell versions apart if only last components hold
  dashes (`AppData.TextTellsVersion`); every version with a dash in the last
  component but one shares its text with another (`AppData.DashRunsOn`,
  `AppData.DashFails`).
- `getInterpolatedColors` announces that a single neighbour gives its own colour,
  and then overwrites it. An upper neighbour alone is mixed from black by a share
  that depends on an uninitialised bound: `ColorSet.UpperAlone` says exactly when the
  own colour comes out, `ColorSet.UpperAloneIsBlack` when black does. A lower
  neighbour alone does keep its colour at every distance that is not huge itself
  (`ColorSet.LowerAlone`).

## Model

| member | source | states |
|---|---|---|
| Rfc1321.StepsInverse | src/app/md5.cc:161-236 | for every block, the 64 steps before the final additions are a bijection on the four words: an inverse run undoes them, and they undo it |
| Rfc1321.StepInverse | src/app/md5.cc:84-98 | each single step is undone by its inverse, for every word of the block, shift and constant |
| Rfc1321.OperationInverse | src/app/md5.cc:61-98 | a round operation with any of the four functions is undone by rotating back and subtracting |
| Rfc1321.RotInverse | src/app/md5.cc:78-80 | rotation to the left by s is undone by rotation by 32 - s, both ways |
| Rfc1321.BitLaws | src/app/md5.cc:61-75 | on all words: F is y where x has ones and z where it has zeros; G is x where z has ones and y elsewhere; H is x with the bits flipped where y and z differ; I is y with the bits flipped where x has a one or z a zero |
| TestSuite.EmptyDigest | src/app/md5.cc:161-346 | the value of RFC 1321, appendix A.5, for the empty message: d41d8cd98f00b204e9800998ecf8427e, computed step by step |
| TestSuite.AbcDigest | src/app/md5.cc:161-346 | the value of RFC 1321, appendix A.5, for abc: 900150983cd24fb0d6963f7d28e17f72; both pin the table, shifts, words, bytes and the initial value |
| Rfc1321.Index | src/app/md5.cc:166-236 | the word each of the 64 steps uses lies in the block |
| Rfc1321.Shift | src/app/md5.cc:40-56 | every rotation is by 1 to 31 bits |
| Rfc1321.WordsOfBytes | src/app/md5.cc:137-156 | decoding undoes encoding on every list of words |
| Rfc1321.BytesOfWords | src/app/md5.cc:137-156 | encoding undoes decoding on every list of bytes whose length is a multiple of four |
| Rfc1321.PadLengthLeast | src/app/md5.cc:304-308 | the number of padding bytes is between 1 and 64 and the least that leaves 56 modulo 64 |
| Rfc1321.PaddedTotal | src/app/md5.cc:298-312 | the padded message fills whole blocks |
| Rfc1321.PaddedInjective | src/app/md5.cc:298-312 | two messages below 2^61 bytes with the same padded form are equal |
| Rfc1321.AbsorbPrefix | src/app/md5.cc:263-278 | absorbing the first n blocks depends on those blocks alone |
| Rfc1321.HexInjective | src/app/md5.cc:335-346 | the hex text determines the digest |
| Rfc1321.Hex | src/app/md5.cc:335-346 | two characters for each byte, all of them lower-case hex digits |
| Md5.FF | src/app/md5.cc:84-86 | the first operation equals a step of RFC 1321, section 3.4, with wrap-around additions |
| Md5.GG | src/app/md5.cc:88-90 | the same for the second operation |
| Md5.HH | src/app/md5.cc:92-94 | the same for the third operation |
| Md5.II | src/app/md5.cc:96-98 | the same for the fourth operation |
| Md5.Round1 | src/app/md5.cc:166-182 | the unrolled first round equals steps 0 to 15 of the table-driven definition |
| Md5.Round2 | src/app/md5.cc:184-200 | the unrolled second round equals steps 16 to 31 |
| Md5.Round3 | src/app/md5.cc:202-218 | the unrolled third round equals steps 32 to 47 |
| Md5.Round4 | src/app/md5.cc:220-236 | the unrolled fourth round equals steps 48 to 63 |
| Md5.Decode | src/app/md5.cc:137-142 | the output array holds the little-endian words of the input, and nothing else of it changes |
| Md5.Encode | src/app/md5.cc:148-156 | the output array holds the little-endian bytes of the words, and nothing else of it changes |
| Md5.ChunkFitsExactly | src/app/md5.cc:274-275 | the loop over the blocks stays inside the chunk and ends if and only if the length is below 2^32 - 64, or less than a partial block above |
| Md5.ToSize | src/app/md5.h:53 | a text length is cut to 32 bits |
| Md5.MD5.constructor | src/app/md5.cc:103-132 | an empty message is tracked, with the initial chaining value and a zero counter |
| Md5.MD5.Transform | src/app/md5.cc:161-243 | the state becomes the compression of the old state with the 64 bytes, in whatever array they lie |
| Md5.MD5.CountBits | src/app/md5.cc:256-259 | carry detection and the shifted length keep the two words at 8 times the byte count modulo 2^64 |
| Md5.MD5.TransformBlocks | src/app/md5.cc:273-275 | every full block of the input behind its first part is absorbed, none skipped, up to the last 63 bytes |
| Md5.MD5.TransformFull | src/app/md5.cc:264-281 | buffer and input together are absorbed block by block and the index tells what remains |
| Md5.MD5.BufferRest | src/app/md5.cc:280-284 | what did not fill a block lies behind the bytes already buffered, and buffer, counter and state stand for the whole message |
| Md5.MD5.Update | src/app/md5.cc:251-285 | the message grows by exactly the chunk; state, counter and buffer again stand for the whole message |
| Md5.MD5.Pad | src/app/md5.cc:299-312 | what is fed is exactly the padding of RFC 1321, sections 3.1 and 3.2, with the length before padding |
| Md5.MD5.StoreDigest | src/app/md5.cc:314-315 | the stored bytes are the digest of the message before padding |
| Md5.MD5.Finalize | src/app/md5.cc:298-330 | the first call digests the message so far; on every later call state, counter, buffer and digest stay as they are |
| Md5.MD5.HexDigest | src/app/md5.cc:335-346 | empty before finalize, afterwards the hex text of the digest of the finalized message |
| Md5.MD5.OfText | src/app/md5.cc:111-116 | the text, as long as 32 bits hold its length, is finalized at once |
| Md5.Md5Hex | src/app/md5.cc:357-362 | the convenience function equals the digest of RFC 1321 for all texts below 2^32 bytes |
| Md5.AnyChunking | src/app/md5.cc:251-346 | for every message and every way of cutting it into chunks the result is the one-shot digest of RFC 1321 |
| Md5.FurtherUse | src/app/md5.cc:298-346 | after finalize the hex digest stays the same over any further updates and finalizes |
| Text.SplitJoin | scripts/create-changelogs.py:77-87 | splitting a joined line gives the fields back if none holds the separator |
| Text.ParseStr | scripts/create-changelogs.py:84 | int undoes the printing of every integer |
| Text.ParseSigned | scripts/create-changelogs.py:84 | int reads digits with blanks around them and with either sign, also with leading zeros |
| Text.ReturnsAreRead | scripts/create-changelogs.py:77 | a text reads alike whether its lines end in LF, CR LF or CR |
| Text.ReturnsAreGone | scripts/create-changelogs.py:77 | no carriage return is left of any text |
| Catalogue.PutKeepsOrder | scripts/create-changelogs.py:84 | a known name keeps its place in the dictionary, a new one comes last, and no other entry changes |
| Catalogue.LineEndsDoNotMatter | scripts/create-changelogs.py:77-87 | a CSV file gives the same rows with any of these line ends |
| Catalogue.FindTypeById | scripts/create-changelogs.py:65-69 | the found name has the id; an empty result means that no name has it, or the empty name |
| Catalogue.SearchTypeById | scripts/create-changelogs.py:65-69 | the loop over the dictionary finds the first name in insertion order |
| Catalogue.FindIsInverse | scripts/create-changelogs.py:65-69 | with distinct ids the search is the exact inverse of the map from names to ids |
| Catalogue.FindIsFirst | scripts/create-changelogs.py:65-69 | if several names share an id, the one that was put in first is found |
| Catalogue.ReadText | scripts/create-changelogs.py:77-87 | the non-empty lines in the order of the wanted columns, each up to its first missing field; a header without a wanted column raises |
| Catalogue.ReadTable | scripts/create-changelogs.py:74-87 | the rows of one table over all directories that hold its file; an exception in one ends the script |
| Catalogue.ReadElementTypes | scripts/create-changelogs.py:71-102 | the loops over both files build the catalogue that the tables define, or raise; a short row of an unknown parent is skipped as in the script |
| Catalogue.ReadPropertyTypes | scripts/create-changelogs.py:117-150 | the same for property types and their element types |
| Catalogue.BuildDbElementTypes | scripts/create-changelogs.py:105-114 | the catalogue of the database, or the KeyError of a reference without a parent |
| Catalogue.BuildDbPropertyTypes | scripts/create-changelogs.py:153-168 | pairs of unknown property types are skipped, all others attached |
| Catalogue.ReferenceKeys | scripts/create-changelogs.py:95-101 | a type has a key after reading exactly if it had it or a row gives it, whatever the other rows are |
| Catalogue.PairElements | scripts/create-changelogs.py:144-149 | an element type is attached after reading exactly if it was or a row attaches it |
| Catalogue.ReferencesRaise | scripts/create-changelogs.py:95-101 | reading references raises exactly if a row of a known parent has an unreadable child id |
| Catalogue.PairsRaise | scripts/create-changelogs.py:144-149 | reading pairs raises exactly if a row names an unknown property type |
| Changelog.WriteElementFiles | scripts/create-changelogs.py:262-319 | both element tables are written as the rows define them, nothing if there are none, or the script raises |
| Changelog.WriteProperties | scripts/create-changelogs.py:322-346 | new property types get ids counting up from the last one, in the order of the diff |
| Changelog.WritePairs | scripts/create-changelogs.py:349-378 | every new pair is written with the ids of its names, old or new, or the script raises |
| Changelog.WriteFiles | scripts/create-changelogs.py:260-378 | the four files together hold exactly the rows of the generated tables |
| Changelog.LastIdIs | scripts/create-changelogs.py:260-263 | the last id is 0 without names, and otherwise the id of a name that no other exceeds |
| Convergence.ConsistentReads | scripts/create-changelogs.py:71-150 | consistent changelogs are read without an exception, with distinct ids, and the catalogue reflects them row by row |
| Convergence.SoundReads | scripts/create-changelogs.py:105-168 | a sound database is read without an exception, and its references and pairs lead to listed types |
| DatabaseRows.DbReferencesExactly | scripts/create-changelogs.py:105-114 | the catalogue of the database in terms of its rows: a type is listed if and only if a row names it, it has a key if and only if a row gives it that key, and the last such row decides its child |
| DatabaseRows.DbPropertiesExactly | scripts/create-changelogs.py:153-168 | the same for property types: kind and unit come from a row, and an element type is attached if and only if a row pairs the two |
| DatabaseRows.RunNumbersOn | scripts/create-changelogs.py:260-346 | a run writes exactly the element types that no changelog row names, numbered from the greatest listed id on, or from 1, in the order it lists them; property types likewise, with kind and unit of a database row |
| Convergence.NewNames | scripts/create-changelogs.py:268-271 | the new names are exactly those of the database that the changelogs lack, and each gets an id |
| Convergence.AssignedAt | scripts/create-changelogs.py:275-278 | assigned ids count up from the last one in the order of the names |
| Convergence.AssignedFresh | scripts/create-changelogs.py:260-278 | assigned ids are above all old ones and pairwise distinct |
| Convergence.WhatIsWritten | scripts/create-changelogs.py:273-378 | which rows a run writes, by membership, whatever the order in which sets are iterated |
| References.UnambiguousReads | scripts/create-changelogs.py:71-134 | changelogs with one child for each parent and key, and listed ids throughout, are read with every child, kind and unit, in whatever order their rows come |
| References.ReferencesStay | scripts/create-changelogs.py:71-102 | with more rows in the tables a reference that was read keeps its parent, key and child |
| References.OneRowForKey | scripts/create-changelogs.py:287-313 | a written row never meets another row, old or new, of the same parent and key |
| References.NextUnambiguous | scripts/create-changelogs.py:260-346 | the old rows and those of one more run are unambiguous again, so runs never make the child depend on the order of rows |
| References.NewReferenceReadsBack | scripts/create-changelogs.py:287-313 | a row written for a new reference reads back as the parent, the key and the child of the database |
| References.ChildReadsBackExactly | scripts/create-changelogs.py:298-299 | after a run the child that is read equals that of the database if and only if the key was new or the changelogs had that child already |
| References.RunKeepsClear | scripts/create-changelogs.py:245-378 | the same for whole runs: directories stay consistent and unambiguous |
| References.RunReadsReferences | scripts/create-changelogs.py:258-378 | after a whole run every reference of the database is read, with its child under exactly that condition, in whatever order directories are listed |
| DatabaseRows.RowReadsBack | scripts/create-changelogs.py:287-313 | for the row of the database that decides a parent and key, a run makes its child read back if and only if the key was new or had that child |
| References.MoreDirectoriesKeep | scripts/create-changelogs.py:71-102 | more directories never change the id of a name or the child of a reference that fewer gave |
| Convergence.NextConsistent | scripts/create-changelogs.py:260-378 | the old rows and those of one more run are consistent again: one id for each name, one name for each id |
| Convergence.ElementIdsReadBack | scripts/create-changelogs.py:71-84 | after a run every name reads back with the id it had or was given |
| Convergence.PropertyIdsReadBack | scripts/create-changelogs.py:117-134 | the same for property types |
| Convergence.ReferenceReadsBack | scripts/create-changelogs.py:289-313 | every reference of the database is then known under its parent and key, whatever its child |
| Convergence.PairReadsBack | scripts/create-changelogs.py:349-372 | every pair of the database is then known by both its names |
| Convergence.CoveredWritesNothing | scripts/create-changelogs.py:268-385 | if every name, key and pair is covered, a run writes no row |
| Convergence.WrittenClean | scripts/create-changelogs.py:275-372 | all written texts fit a CSV field if those of the database do |
| ReadBack.FileReadsBack | scripts/create-changelogs.py:274-282 | a written file reads back as the rows it was written from |
| ReadBack.RenderReadsBack | scripts/create-changelogs.py:274-376 | the four files of a run, printed and parsed again, give the same four tables |
| ReadBack.TablesMerge | scripts/create-changelogs.py:73-149 | with one more directory, listed in any order, the tables hold the rows of both |
| Runs.Run | scripts/create-changelogs.py:245-378 | the whole run yields the files of the generated tables, or raises |
| Runs.RunSucceeds | scripts/create-changelogs.py:259-378 | on usable input no run raises |
| Runs.RunKeepsConsistency | scripts/create-changelogs.py:245-378 | a run leaves the changelogs consistent, whatever the order of directories |
| Runs.SecondRunWritesNothing | scripts/create-changelogs.py:258-385 | a second run on the same database writes nothing, in whatever order it lists sets and directories |
| Runs.ElementlessRunRepeats | scripts/create-changelogs.py:330-334 | without any element type the property types are written again by the next run |
| Runs.SettlesExactly | scripts/create-changelogs.py:258-385 | one run settles the changelogs if and only if an element type is listed somewhere, or there is no property type |
| Runs.LonePropertyType | scripts/create-changelogs.py:330-334 | on an empty directory and a database with one property type and no element type, the next run writes again |
| Versions.Greatest | scripts/create-changelogs.py:187-189 | the last of the sorted names is one of them and none is greater in string order |
| Versions.IsChangelogExactly | scripts/create-changelogs.py:188 | the files that count are exactly those of the form v, any text, .xml |
| Versions.StemEnds | scripts/create-changelogs.py:187 | the number is what stands between the first letter and the first dot |
| Versions.OrderIsNumeric | scripts/create-changelogs.py:187-189 | between digit strings of one width string order is the order of the numbers, and equal numbers are equal strings |
| Versions.NextIsSuccessor | scripts/create-changelogs.py:183-193 | with names of one width the next version is the successor of the greatest number |
| Versions.NextIsFresh | scripts/create-changelogs.py:183-193 | below the bound of the width the name is new, keeps the width, and is the greatest from then on |
| Versions.NextIsStuck | scripts/create-changelogs.py:193 | at the bound the longer name sorts below the old ones and is chosen again by the next run |
| Versions.VersionsAdvanceExactly | scripts/create-changelogs.py:183-193 | two runs get different versions if and only if the successor still fits the width |
| Versions.StuckAtNine | scripts/create-changelogs.py:183-193 | behind v9.xml alone every run chooses v10 |
| History.StepKeeps | scripts/create-changelogs.py:245-385 | one run keeps the directory: numbered versions, a folder for each, and a consistent and unambiguous catalogue in every listing |
| History.SecondStepIsIdle | scripts/create-changelogs.py:245-385 | running again on the same database leaves the directory as it is |
| History.HistoryIsKept | scripts/create-changelogs.py:245-385 | over any history of runs on changing databases, from any directory that is kept, every directory on the way is kept, as long as the version of each run with changes fits the width; runs without changes do not count |
| History.RoomForRuns | scripts/create-changelogs.py:183-193 | from an empty directory that holds for every history of up to 9999 runs |
| History.HistoryKeepsReferences | scripts/create-changelogs.py:71-102 | over any such history names keep their ids and references their children, in every later directory and every listing of it |
| History.WrittenReferenceReadsBack | scripts/create-changelogs.py:287-313 | a reference that some run of the history writes reads back as its parent, key and child in every later directory |
| DatabaseRows.RowReadsBackLater | scripts/create-changelogs.py:287-313 | over any history, a row of the database under a new key reads back as its parent, key and child in every later directory |
| TargetStreams.AncestorsExactly | src/app/DataPoolIntens.cc:1025-1026 | the walk visits every prefix of the name that ends before a dot, and nothing else |
| TargetStreams.Merge | src/app/DataPoolIntens.cc:1033-1038 | merging keeps the first list as a prefix, holds exactly the streams of both, and makes no duplicate |
| TargetStreams.RegisterKeeps | src/streamer/TargetContainer.cc:27-40 | registering a stream keeps the invariant of the container |
| TargetStreams.LookupIsExact | src/app/DataPoolIntens.cc:1022-1042 | a lookup finds exactly the streams registered for the name and all its dotted prefixes, once each, or no list if there is none |
| TargetStreams.LookupKeeps | src/app/DataPoolIntens.cc:1022-1042 | a lookup keeps the invariant although it writes ancestors' streams into a stored list |
| TargetStreams.LookupTwice | src/app/DataPoolIntens.cc:1022-1042 | a second lookup finds the same list and writes nothing |
| TargetStreams.LookupLeaks | src/app/DataPoolIntens.cc:996-1042 | a lookup writes all it finds into the first stored list on the path and into no other; that list stays as registered if and only if nothing else is registered along the path |
| TargetStreams.LeaksAfterAnyRun | src/app/DataPoolIntens.cc:996-1042 | the same after any run: the list holds only registered streams if and only if every stream along the path is registered for the list's own name, and it never loses one |
| TargetStreams.RegistryIsExact | src/streamer/TargetContainer.cc:27-40 | the registry of a run holds what was registered, and lookups do not count |
| TargetStreams.RunHolds | src/app/DataPoolIntens.cc:986-1102 | the invariant holds after every run of registering, checking and clearing |
| TargetStreams.FoundAfterAnyRun | src/app/DataPoolIntens.cc:986-1102 | after any run a lookup finds exactly the streams registered for the name or a dotted prefix of it, each once |
| TargetStreams.MessagesTell | src/app/DataPoolIntens.cc:1069-1076 | the error text is empty exactly if no stream asked has a valid target |
| TargetStreams.MessagesInOrder | src/app/DataPoolIntens.cc:1066-1080 | the text is made of the messages of the streams asked, each on a line of its own and behind the earlier ones, and of nothing else |
| TargetStreams.TargetContainer.SetTargetStream | src/streamer/TargetContainer.cc:27-40 | the stream is added to the stored list of the name, or to a new list of its own, and to no other |
| TargetStreams.TargetContainer.GetTargetStreamList | src/streamer/TargetContainer.cc:45-51 | the stored list itself, or null |
| TargetStreams.TargetContainer.Insert | src/streamer/TargetContainer.cc:57-67 | a stream that is there stays where it is, another is appended |
| TargetStreams.DataPoolIntens.PushMissing | src/app/DataPoolIntens.cc:1033-1038 | the loop appends the missing streams in their order and leaves the other list alone |
| TargetStreams.DataPoolIntens.AppendParentTargetStreamList | src/app/DataPoolIntens.cc:1022-1042 | the returned list is the merge along the path; exactly the list of the longest registered prefix is extended; the name ends without a dot |
| TargetStreams.DataPoolIntens.CheckTargetStreams | src/app/DataPoolIntens.cc:1048-1077 | it fails exactly if one of the streams found has a valid target; with no dependencies or no list nothing is asked and no transaction opened |
| TargetStreams.DataPoolIntens.ClearTargetStreams | src/app/DataPoolIntens.cc:1083-1102 | all streams found are cleared in order with one new transaction number, none if there is no list |
| TargetStreams.Run | src/app/DataPoolIntens.cc:986-1102 | any run of the three operations on the objects ends in the container that the specification gives |
| StreamGraph.BasicStream.ClearItemsAndTargets | src/streamer/BasicStream.cc:288-304 | in any graph, with cycles, it ends; every stream with new marks has passed them on, marks stay within every closed set, and exactly the streams with new item marks become invalid |
| StreamGraph.BasicStream.ClearItemStreams | src/streamer/BasicStream.cc:276-282 | the targets of all streams that share items are marked |
| StreamGraph.BasicStream.ClearTargets | src/streamer/BasicStream.cc:310-329 | all targets are marked, unless the data of the stream carry this transaction number |
| StreamGraph.ReachIsClosed | src/streamer/BasicStream.cc:276-329 | what is reached passes clearing on within itself |
| StreamGraph.ReachIsLeast | src/streamer/BasicStream.cc:276-329 | no smaller closed set holds the start |
| StreamGraph.ClearAsTargetStream | src/streamer/BasicStream.cc:150-153 | exactly the streams reached from the stream are marked and invalid afterwards, all others keep their state |
| StreamGraph.SetSourceInvalid | src/streamer/BasicStream.cc:582-584 | the first source number becomes invalid, and the graph that the clearing sees stays the same |
| StreamGraph.ClearTargetStreams | src/streamer/BasicStream.cc:250-255 | clearing the targets of one input stream adds to what earlier ones cleared |
| StreamGraph.ClearAllTargetStreams | src/app/DataPoolIntens.cc:1095-1101 | with one new number for several streams, exactly what is reached from all their targets becomes invalid |
| Cycles.StepKeeps | src/app/DataPoolIntens.cc:1130-1231 | every operation keeps at least one cycle, a selected one in range, and distinct identities |
| Cycles.SurvivorsStay | src/app/DataPoolIntens.cc:1217-1268 | a cycle that survives an operation keeps its name and its items |
| Cycles.OrderStays | src/app/DataPoolIntens.cc:1262-1268 | no cycle overtakes another |
| Cycles.OnlyRemovedGoes | src/app/DataPoolIntens.cc:1217-1231 | a cycle goes exactly if it is removed and not the only one |
| Cycles.RemoveAnswers | src/app/DataPoolIntens.cc:1227-1230 | removing answers true exactly if another cycle is selected afterwards |
| Cycles.SelectionFollows | src/datapool/DataPool.cc:380-391 | the selected cycle stays selected when another is removed; if it goes itself, its predecessor is selected, or the first one left |
| Cycles.RemoveUndoesNew | src/datapool/DataPool.cc:363-395 | removing a new cycle restores the selection if and only if the last cycle was selected before |
| Cycles.GoAnswersExactly | src/app/DataPoolIntens.cc:1204-1211 | going to a cycle answers whether it is selected if and only if the number is not negative; negative numbers answer true and select nothing |
| Cycles.LastIsBehindAll | src/app/DataPoolIntens.cc:1158-1166 | going to the last cycle selects the one behind which there is none, changes no cycle, and answers whether that is another one |
| Cycles.FirstIsAheadOfAll | src/app/DataPoolIntens.cc:1145-1152 | going to the first cycle selects the one ahead of which there is none, likewise |
| Cycles.NextIsRightBehind | src/app/DataPoolIntens.cc:1188-1198 | going on selects the cycle right behind, if and only if there is one; otherwise a cycle without a name is added |
| Cycles.NewIsTitled | src/app/DataPoolIntens.cc:1130-1139 | a new cycle comes last, is selected, has the items of the one selected before, and the given title, or the stand-in if and only if that is empty |
| Cycles.GoKeepsCycles | src/app/DataPoolIntens.cc:1204-1211 | going to a number changes no cycle |
| Cycles.NamedForLife | src/app/DataPoolIntens.cc:1130-1268 | over any run a cycle has one name and the same items |
| Cycles.DataPool.NewCycle | src/datapool/DataPool.cc:288-306 | a copy of the selected cycle, or a first one, is appended and selected |
| Cycles.DataPool.SetCycle | src/datapool/DataPool.cc:312-332 | a number in range is selected, any other leaves the selection |
| Cycles.DataPool.RemoveCycle | src/datapool/DataPool.cc:363-395 | one position is deleted; a later selection moves down with its cycle; the first place is the lowest |
| Cycles.DataPoolIntens.constructor | src/app/DataPoolIntens.cc:488-492 | the base cycle alone, named and selected |
| Cycles.DataPoolIntens.NewCycle | src/app/DataPoolIntens.cc:1130-1139 | cycles and name table together make the step of the reference list, with a name even for an empty title |
| Cycles.DataPoolIntens.FirstCycle | src/app/DataPoolIntens.cc:1145-1152 | the step of the reference list and its answer |
| Cycles.DataPoolIntens.LastCycle | src/app/DataPoolIntens.cc:1158-1166 | the step of the reference list and its answer |
| Cycles.DataPoolIntens.NextCycle | src/app/DataPoolIntens.cc:1188-1198 | the next cycle, or a new one without a name and the answer false |
| Cycles.DataPoolIntens.GoCycle | src/app/DataPoolIntens.cc:1204-1211 | the step of the reference list and its answer |
| Cycles.DataPoolIntens.RemoveCycle | src/app/DataPoolIntens.cc:1217-1231 | table and cycles lose the same place together |
| Cycles.DataPoolIntens.RemoveCycleName | src/app/DataPoolIntens.cc:1262-1268 | exactly the names behind the removed place move up by one |
| Cycles.Run | src/app/DataPoolIntens.cc:1130-1268 | any run of operations from the base cycle agrees with the reference list, in state and in every answer |
| Help.OutlineReadsBack | src/app/HelpText.cc:325-432 | sections that are written down as lines are found again by the outline |
| Help.WordsReadBack | src/app/HelpText.cc:347-361 | words with single spaces between them are found again, and do not hang the loop |
| Help.KeyLeadsToFirst | src/app/HelpManager.cc:139-152 | a new key leads to the first chapter that lists it, and is known exactly if some chapter lists it |
| Help.KnownKeysStay | src/app/HelpManager.cc:143-147 | keys that were known before stay as they are |
| Help.InFile.Get | src/app/HelpText.cc:343-362 | the character at the position; without one the variable keeps its value and the stream fails |
| Help.InFile.GetLine | src/app/HelpText.cc:334-346 | the rest of the line; a last line without a break sets the end flag, no line at all both flags |
| Help.HelpText.InstallHelpKey | src/app/HelpManager.cc:139-152 | a known key stays, a new one gets the file and the chapter |
| Help.HelpText.InstallKeyLine | src/app/HelpText.cc:346-361 | the words of the line become keys of the next chapter; the loop never ends exactly if a space follows the last word |
| Help.HelpText.InstallKeywords | src/app/HelpText.cc:344-363 | all keyword lines behind a header are consumed, and no other line |
| Help.HelpText.InstallChapter | src/app/HelpText.cc:325-371 | a header with its keyword lines becomes the next chapter; the stream fails exactly at the end of the file |
| Help.HelpText.InspectChapter | src/app/HelpText.cc:414-420 | start and end of a new chapter enclose nothing yet, at the position of the next line |
| Help.HelpText.InspectBodyLine | src/app/HelpText.cc:421-427 | the end of the chapter moves to the end of the line that was read |
| Help.HelpText.InspectHelpText | src/app/HelpText.cc:377-432 | for every file: it misses the title, or it never ends exactly if a keyword line has a trailing space or the last chapter has no body, or the chapters delimit the bodies of the sections of the file and the keys are installed |
| Help.HelpText.ReadChapter | src/app/HelpText.cc:307-314 | lines are read up to the end of the line in which the last offset lies, or to the end of the file for a negative length |
| Help.HelpText.LoadChapter | src/app/HelpText.cc:288-319 | the page shows title and text of the chapter; a start outside the file changes nothing |
| Help.LoadIsExact | src/app/HelpText.cc:307-314 | a found chapter shows its body if and only if it has one; without a body it shows all that follows |
| Help.InspectedShows | src/app/HelpText.cc:377-432 | after an inspection that ended every page can be shown |
| Help.PageIsSection | src/app/HelpText.cc:288-319 | the page on display is the section selected, if and only if that has a body |
| Help.HelpText.NextChapter | src/app/HelpText.cc:245-252 | the selection advances up to the last chapter and the page follows it |
| Help.HelpText.PreviousChapter | src/app/HelpText.cc:258-265 | the selection goes back to the first chapter and the page follows it |
| Help.HelpText.HelpDialog | src/app/HelpText.cc:92-99 | a chapter number in range is selected and shown, any other ignored |
| DbModified.DataAlterSetDbModified.constructor | src/app/DataAlterSetDbModified.cc:17-23 | without a number the stamp is the current transaction |
| DbModified.DataAlterSetDbModified.AlterItem | src/app/DataAlterSetDbModified.cc:56-100 | an item is stamped exactly if it is not transient and on the last level; transient items, leaves and missing ranges end the branch |
| DbModified.DataAlterSetDbModified.Epilog | src/app/DataAlterSetDbModified.cc:45-50 | a new transaction is opened exactly if asked for |
| DbModified.DataAlterGetDbModified.AlterItem | src/app/DataAlterGetDbModified.cc:56-131 | structures and missing ranges are judged by the full update, leaves by the value too; transient items never count |
| DbModified.AlterSet | src/datapool/DataItem.cc:1282-1396 | exactly the visible items below the last level are stamped and nothing else changes |
| DbModified.AlterSetAlong | src/datapool/DataStructElement.cc:381-423 | along a path nothing is stamped above the last level, and nothing at all if the path is blocked |
| DbModified.AlterGet | src/datapool/DataStructElement.cc:388-403 | the flag is set exactly if a visible item is newer than its stamp, although the walk stops early |
| DbModified.AlterGetAlong | src/datapool/DataItem.cc:1282-1396 | along a path the flag is set exactly if a compared item is newer than its stamp |
| DbModified.SetDbModified | src/xfer/XferDataItem.cc:1542-1545 | the visible items carry the stamp, all other state is unchanged, and the clock ticks if asked for |
| DbModified.GetDbModified | src/job/JobDataReference.cc:585-594 | the answer is whether a compared item is newer than its stamp; no item changes |
| DbModified.AlterValue | src/datapool/DataItem.cc:314-332 | a written value marks the items on its way and gives them data |
| DbModified.VisibleHasPath | src/datapool/DataItem.cc:1282-1396 | every item the visitors reach has an open path without transient items |
| DbModified.PathIsVisible | src/datapool/DataItem.cc:1282-1396 | and every such path leads to an item they reach |
| DbModified.ModifiedExactly | src/app/DataAlterGetDbModified.cc:56-131 | after loading and a new transaction, over any later run of writes, also along a path whose data did not exist at loading: if the path is open then, data is reported modified if and only if an item was written below the path with no transient item on its way; if it is closed still, if and only if the item at its first gap is in reach and was modified before loading or written since |
| DbModified.HistoryKeeps | src/app/DataAlterSetDbModified.cc:56-100 | in every state of every run of writes and loads no stamp lies in the future, and where there are no data nothing was written |
| DbModified.ModifiedAfterHistory | src/app/DataAlterGetDbModified.cc:56-131 | so what ModifiedExactly says holds for a load after any run of writes and earlier loads, from items without data on |
| DbModified.ComparedIfClosed | src/datapool/DataItem.cc:1282-1396 | a path is not open if and only if a first structure without data lies on it, and that structure is all that is compared then |
| DbModified.LoadingSettles | src/app/DataAlterSetDbModified.cc:56-100 | right after loading data is reported unmodified if and only if the data on the path exist or were unmodified before |
| DbModified.SameTransactionMissed | src/app/DataAlterSetDbModified.cc:45-50 | without a new transaction no write to loaded data is ever reported in the same transaction |
| ReportGen.AppendTwice | src/app/ReportGen.cc:423-455 | appending an extension without a dot twice is appending it once |
| ReportGen.AppendIsInjective | src/app/ReportGen.cc:423-455 | different names without dots stay different with their extension |
| ReportGen.AppendBehindDot | src/app/ReportGen.cc:423-455 | a name with a dot keeps an extension that is the given one, in capital letters too, or has at most five characters; it gets the given one otherwise |
| ReportGen.LowerIs | src/app/ReportGen.cc:423-455 | capital ASCII letters become small ones, nothing else changes |
| ReportGen.NamesRunOn | src/app/ReportGen.cc:157-164 | from 0 the names run through the digits, from a and A through the letters |
| ReportGen.LetterIsAdded | src/app/ReportGen.cc:157-164 | behind 9, z, Z and any other character an a is added |
| ReportGen.NamesGrow | src/app/ReportGen.cc:159-163 | each name tried is longer than the ones before, or of the same length with a greater last character |
| ReportGen.TakenNames | src/app/ReportGen.cc:155-164 | so many names are taken only if there are so many files |
| ReportGen.Bump | src/app/ReportGen.cc:159-163 | the next name has no underscore, dot or backslash if the name has none |
| ReportGen.ReportGen.Replace | src/app/ReportGen.cc:147-151 | exactly the given characters of the name are replaced in place |
| ReportGen.ReportGen.ValidatePreviewFile | src/app/ReportGen.cc:123-171 | it ends for every start name and finite set of files within one more try than files; the result is the first free name of the row, without underscore, dot or backslash; the outer loop runs once |
| ColorSet.BandTakes | src/app/ColorSet.cc:378-428 | which numbers a band takes, for each kind of bound: at, above or below the lower one, at or below the upper one, one-sided without an upper one |
| ColorSet.OtherItemsTake | src/app/ColorSet.cc:378-381 | without a lower bound a band takes nothing |
| ColorSet.InsideOrBeside | src/app/ColorSet.cc:242-250 | every number is in, below or above a band bounded on both sides, or at an open end of it; a closed band holds its bounds; no number is inside and beside |
| ColorSet.SideBySide | src/app/ColorSet.cc:403-428 | bands side by side, each with its lower and without its upper bound, share no number and leave none out |
| ColorSet.NeverBoth | src/app/ColorSet.cc:341-357 | no number is below and above a band, whatever its bounds |
| ColorSet.GetColorItem | src/app/ColorSet.cc:303-311 | the first item that the number lies in, or none |
| ColorSet.FindNeighbours | src/app/ColorSet.cc:238-256 | the first band with the greatest upper bound below the number and the first with the least lower bound above it, with their distances |
| ColorSet.GetInterpolatedColors | src/app/ColorSet.cc:224-297 | a matching item gives its colours; otherwise both colours are mixed, with the machine's rounding, by the share that distances and bounds give, with black for a missing neighbour, in all cases of neighbours; without any background nothing is found |
| ColorSet.MixBetween | src/app/ColorSet.cc:275-288 | every channel of a mixed colour lies between those of the two colours, under any rounding that keeps the order of numbers and short fractions |
| ColorSet.ChannelOnTheWay | src/app/ColorSet.cc:275-288 | each mixed channel lies within a step, and the error of rounding, below the share's point of the way |
| ColorSet.EnclosedMixes | src/app/ColorSet.cc:270-288 | between two neighbours the share is strictly between 0 and 1 and every channel between the neighbours' channels |
| ColorSet.LowerAlone | src/app/ColorSet.cc:249-288 | a lower neighbour alone keeps its own colour as long as 256 times the distance is at most the part of the huge distance that the machine loses beside a channel; it fades once the share of its largest channel reaches a whole step |
| ColorSet.UpperAlone | src/app/ColorSet.cc:238-288 | but for rounding, an upper neighbour alone gets its own colour if and only if it is black, or the share, which depends on the uninitialised bound, is 1 or so little more that the largest channel exceeds its own by less than a step, and likewise for transparency |
| ColorSet.UpperAloneRounded | src/app/ColorSet.cc:238-288 | however the machine rounds, that condition decides for opaque colours up to one part in 256 of a step |
| ColorSet.UpperAloneIsBlack | src/app/ColorSet.cc:238-288 | an upper neighbour alone turns black for every share below 1/256 |
| ColorSet.LoneBand | src/app/ColorSet.cc:238-288 | one red band: with the number above it red comes out, with the number below it and the bound left at 0 black does |
| DataSet.Trimmed | src/app/DataSet.cc:317-320 | a label is its own trimmed form exactly if it has no blanks at its ends, and trimmed to nothing exactly if it is all blanks |
| DataSet.TrimmedAlone | src/app/DataSet.cc:317-320 | blanks around a text are trimmed and nothing else, and every text that is not blank has such a form (TrimmedInside) |
| DataSet.TextsFound | src/app/DataSetItem.h:29 | a text is found by a value, or by the label of an item without one |
| DataSet.DataSet.ResetInvalidEntry | src/app/DataSet.cc:40-42 | switches the blank label of create off and keeps the items |
| DataSet.DataSet.SetReal | src/app/DataSet.cc:62-77 | added exactly if the set is one of numbers and the label is new; the first value fixes the type |
| DataSet.DataSet.SetText | src/app/DataSet.cc:83-98 | added exactly if the set is one of texts and the label is new; the first value fixes the type |
| DataSet.DataSet.NameOfReal | src/app/DataSet.cc:128-137 | the label of the first item with the number, or none |
| DataSet.DataSet.NameOfText | src/app/DataSet.cc:143-152 | the label of the first item with the text, where an empty text stands for the label |
| DataSet.DataSet.Create | src/app/DataSet.cc:181-226 | labels and printed values are copied in order, with one blank label at the end for invalid values |
| DataSet.DataSet.GetInputPosition | src/app/DataSet.cc:311-332 | the position of the first stored label equal to the trimmed text, or -1 |
| DataSet.LabelsAreFound | src/app/DataSet.cc:311-332 | after create the label at place i is found at i if and only if it is not empty and has no blanks at its ends |
| DataSet.GetPosition | src/app/DataSet.cc:311-332 | the position of the first entry of either vector that equals the trimmed text, or -1 |
| DataSet.DataSet.GetInputValue | src/app/DataSet.cc:251-267 | the label at the position of the value in the stored output, or failure with an empty text |
| DataSet.ValuesAreFound | src/app/DataSet.cc:251-267 | after create a stored value leads to the label of the first item that has it if and only if the value is not empty and has no blanks at its ends |
| DataSet.QueryFinds | src/app/DataSet.cc:251-267 | any query leads to the label of the first item whose stored value equals the trimmed query, and to none only if it is blank or there is no such item |
| AppData.SplitText | src/app/AppData.cc:542-553 | the parts between delimiters; an empty last part is left out |
| AppData.SplitUndoesJoin | src/app/AppData.cc:542-553 | splitting undoes joining if and only if the last part is not empty |
| AppData.ScanIs | src/app/AppData.cc:577 | blanks and a plus sign ahead of digits do not count, nor does what follows; without digits the variable keeps its value |
| AppData.VersionString | src/app/AppData.cc:569-592 | the text is made component by component, with no dot behind a component that holds a dash |
| AppData.PlainVersion | src/app/AppData.cc:569-592 | a version of plain numbers becomes its components of three digits, joined by dots |
| AppData.TextOrderExactly | src/app/AppData.cc:569-592 | for any two versions of plain numbers, of any widths and lengths, the order of texts is the order of versions if and only if, where they first part, the smaller number does not exceed the first digits of the greater one |
| AppData.TextOrder | src/app/AppData.cc:569-592 | so below 1000 the order of texts is always the order of versions, also for different lengths |
| AppData.WideFails | src/app/AppData.cc:578-579 | 2000 is sorted behind 10000, and 999.1 behind 1000 |
| AppData.TextTellsVersion | src/app/AppData.cc:569-592 | for versions of any length with a dash in the last component at most, two texts are equal if and only if the versions are |
| AppData.DashRunsOn | src/app/AppData.cc:584-588 | every version with a dash in the last component but one, whatever stands ahead of it and whether or not the last one has a dash too, has the text of a different version with one component less |
| AppData.DashFails | src/app/AppData.cc:584-588 | 1-2.3 and 1-2003 have one text |
| Examples.ElementFormat | scripts/create-changelogs.py:274-277 | header and line of the file of element types, written out |
| Examples.ReferenceFormat | scripts/create-changelogs.py:288-299 | the same for references |
| Examples.PropertyFormat | scripts/create-changelogs.py:322-341 | the same for property types |
| Examples.PairFormat | scripts/create-changelogs.py:361-372 | the same for pairs |
| Examples.FirstVersion | scripts/create-changelogs.py:183-193 | the first version is v0001 |
| Examples.TwoChapters | src/app/HelpText.cc:325-432 | a header, a keyword line and a line of text, written out, and the stand-in for a missing title |
| Examples.PreviewNames | src/app/ReportGen.cc:123-171 | replaced characters, and the two names tried behind 8: 9 and 9a |
| Examples.TwoCycles | src/app/DataPoolIntens.cc:1130-1152 | from the base cycle to one without a title and back |

## Left out

- Update: `Md5.MD5.Update` requires that the chunk fits 32-bit loop arithmetic; for any other chunk the loop leaves the chunk or never ends, as `Md5.ChunkFitsExactly` proves.
- Md5Hex: requires the same of the text length cut to 32 bits, and says only for lengths below 2^32 that the whole text is digested.
- Encode, Decode: the byte shifts and bitwise disjunctions are written as arithmetic; the bit-vector operations of the four round functions are kept.
- MD5: the zeroing of local arrays, the `char` overload of update and the stream operator add nothing.
- ParseInt: Python also accepts underscores between digits, digits of other scripts and other blanks; all are read as an exception.
- Run: `Runs.Run` yields no files when the script raises on the way; the files it may leave behind then, the XML file's content, logins, REST requests and options are not modelled.
- HistoryIsKept: once a version outgrows the width of the names, which `Versions.VersionsAdvanceExactly` describes, nothing is said of later directories.
- CheckTargetStreams: what a stream answers is a parameter that depends on the stream, the transaction and the streams asked before; `BasicStream::checkTargets` itself is not modelled.
- ClearItemsAndTargets: requires a transaction number above 0; with 0 the items mark is ignored and a cycle over item streams is walked for ever, but callers pass numbers of opened transactions.
- ClearTargets: `clearRange`, the erased buffers and file names of a cleared stream are not modelled, only its validity.
- GoCycle: the undo stack that cycle operations write to, `clearCycle`, `TTRemoveCycle` and `TTInsertCycle` are not part of this model.
- InstallChapter: text translations and GUI widgets are left out, and so are opening and closing the file around a dialog.
- LoadChapter: files of 2^63 bytes and more are excluded, because offsets are signed 64-bit numbers.
- AlterSet, AlterGet: an index list on the last level of a reference is not modelled; all elements of an array are visited, as without an index.
- ModifiedExactly: writes are new values and full updates; deleting a container, which drops items with their stamps, is not part of a run. A write into a new element of an array of structures creates all items of the element as fully updated, so here it stands for a full update of every item of that element.
- ValidatePreviewFile: requires a non-empty name, because the code reads the last character of it; files do not appear or vanish during the search.
- GetInterpolatedColors: bounds, distances and the share are exact reals, so rounding up to the share, overflow and NaN are left out, as are the parsing of colour names and bounds read from data items. How the machine rounds the sums of a channel is a parameter; `ColorSet.Absorbs` says what it loses beside a channel, which for doubles is anything below 2^-55. `ColorSet.NearestRounds` shows a rounding that meets all that the lemmas ask for.
- Create: `DataSet.DataSet.Create` does not model that the data pool decodes labels that start with "data:"; the printing of numbers is a parameter; sets indexed by dimensions, global sets that are filled only once and the output updated from the input are left out.
- VersionString: numbers beyond the range of `int` and signs other than `+` are not modelled.
- `appendExtension` compares lower-case forms of ASCII letters only.
- Processes, sockets, plugins, dialogs, report conversion, printing and the option parsing of `AppData` hold no algorithm of this kind.
