# Package editor and player: a verified model

This project models the parts of the Cameyo package tools that compute something, in Dafny 4.11, and proves what they
promise. `dafny verify dfyconfig.toml` checks all of it.

- **The `.reg` files of a package** (`Utf16`, `HexComma`, `TextLines`, `LineWrap`, `RegText`, `RegNumbers`, `RegValues`,
  `RegValueRoundTrip`, `RegFile`, `RegSections`, `RegRoots`, `RegTransfer`, `RegRoundTrip`, `RegPlaces`, `RegTrees`,
  `RegFormat`). The exporter walks a registry tree, maps virtual roots to real ones, escapes, encodes and wraps; the
  importer reads lines with one key of look-ahead and undoes all of it. The result is an equivalence: import undoes export
  exactly for the registries that `GoodSections` and `InOrder` describe, and `RegFormat` says what the file is letter by
  letter. Two of the conditions are limits of the code: an empty element in a list of strings makes its hex data unreadable,
  and the remembered root moves the classes of the user when they follow the user's keys.
- **The virtual file tree** (`CaseFold`, `FileLists`, `FolderTree`, `SaveTree`, `EditTree`, `DiskTree`, `DiskAdd`,
  `OpenTree`, `DirtyFlag`, `Clashes`, `EditRuns`, `FileSystemEditor`, `Paths`). Opening, adding from disk, removing,
  undeleting and saving work on nodes with parent and child links; `View` is their value at one moment, and every method
  says which view it leaves. Saving is described name by name, with the exact condition under which it leaves the live
  files, for the first save after opening and for every later one.
- **The packed Huffman index** (`HuffTable`, `LecHash`, `LecTable`, `LomHash`, `LomTable`) of the two code generators,
  for any table the scheme is made for and for the two tables of the programs.
- **The list of recent files** (`MruList`) and **the commands in package properties** (`CommandSplice`, `OwnCommands`,
  `CommandChoices`).
- **The server singleton** (`ServerSingleton`) as steps of any number of threads.
- **The flag dialog** (`FileFlags`) and **the search for the magic number** (`MagicScan`).

`Wrappers` and `Sequences` hold options, results and the string operations of .NET that the code relies on. A string is a
sequence of 16-bit code units (`Text`), except in the commands, which are `string`. Names are compared by `Fold`.

Where methods work on tree nodes they take the view they start from as a ghost parameter `v`; `Agrees(v)` says that the nodes
hold what `v` says, `Good(v)` and `Wired(v)` are the invariant, and `Covers` ties the tree to the package.

Where the code differs from what its comments or messages say, the model follows the code:

- after Save As (`MainForm.cs` lines 592-607), or a save that fails behind line 499, the tree is kept, and a file from disk
  that is removed only then stays in the package (`EditRuns.RemovedTooLate`); the Save command opens the package again (lines
  654-662), after which all is as at the first opening;
- a live file can clash with a deleted folder or a removed file and is then lost (`Clashes`);
- a file added over one that was added before takes over its flags but not its bytes: the path of the first one stays
  (`FileSystemEditor.cs` lines 462-463 and 487-488), and the save reads the file there (`EditRuns.NewBytesSaved`);
- overwriting a just added file, and undeleting a folder, do not set `dirty` (`FileSystemEditor.cs` lines 487-488 and
  516-525), so that closing drops these changes without a question (`DirtyFlag.QuietReturn`);
- a folder listed with a size of its own counts it twice (`OpenTree.Share`);
- the list of recent files drops slot 7 also when a file of the list is used again, so that it can shrink to seven
  (`MruList.Shrinks`);
- removing an own command that stands twice in a row leaves one behind, which is then shown.

## Model

| member | source | states |
|---|---|---|
| `RegRoundTrip.ImportUndoesExport` | PackageEditor/RegistryFunctions.cs:58-222 | For every list of keys, whatever their names, kinds, data and order: importing the exported file gives back exactly this list if and only if every key and value can be kept in a file (`GoodSections`: one-line names, canonical roots, no bracket at the end, one-line strings, well-formed UTF-16 in expandable strings, list elements well-formed, not empty and without NUL, a supported kind) and every key is read in its turn (`InOrder`: the classes of the user are found by a search, not through the remembered root) |
| `RegTrees.WholeRegistry` | PackageEditor/RegistryFunctions.cs:58-222 | For every registry tree: importing the exported file gives back every key of the tree that has a name, each once, with its own name and values and in the order of the tree (`ComesBack`), if and only if each of these keys and values can be kept and the top key `%CurrentUser%_Classes` does not come right after `%CurrentUser%` |
| `RegTrees.AnyKey` | PackageEditor/RegistryFunctions.cs:34-69 | For any key below the top one, exported with everything below it as the editor does for the selected node: every key at or below it comes back once, with its own values and in order, if and only if each of them can be kept and the name is not one of the user root that goes on with `Software\Classes` |
| `RegPlaces.TreeListed` | PackageEditor/RegistryFunctions.cs:58-77 | The sections of an export are the keys of the tree, by their places: for each place whose key has a name below the root there is exactly one section, with that name and the values of that key, and a key stands before those below it, which stand in the order of the subkeys |
| `RegPlaces.OnlyListing` | PackageEditor/RegistryFunctions.cs:58-77 | Sections are such a listing of the tree if and only if they are the ones the export writes |
| `RegTrees.TreeImported` | PackageEditor/RegistryFunctions.cs:172-222 | Whenever the export of a tree with distinct names comes back, the import into an empty registry leaves exactly the keys of the tree and those above them, and each key of the tree with exactly its own names, kinds and data |
| `RegTrees.ClassesMoved` | PackageEditor/RegistryFunctions.cs:81-91 | The failing family: whatever follows `%CurrentUser%_Classes` in a key name, with the user root remembered the key is imported below `%CurrentUser%\Software\Classes` |
| `RegTrees.ImportedRegistry` | PackageEditor/RegistryFunctions.cs:172-222 | Importing an exported file into an empty registry leaves exactly the keys that are exported ones or stand above one, name components being ended by backslashes, and each exported key with exactly its names, kinds and data |
| `RegTrees.StoredKeys` | PackageEditor/RegistryFunctions.cs:197-215 | After any sequence of keys is written to any registry, a key is there if and only if it was before, or it is a written one or stands above a written one; keys that are not written keep their values, and new ones among them have none |
| `RegTrees.StoredValues` | PackageEditor/RegistryFunctions.cs:205-214 | After keys with different names are written, each has its old values overwritten by its own, whatever was written later |
| `RegTransfer.RegWriter.WriteRegKeys` | PackageEditor/RegistryFunctions.cs:58-69 | The recursion over the tree appends the printed sections of the listing, which `RegPlaces.TreeListed` ties to the keys of the tree and their values |
| `RegTransfer.RegWriter.WriteRegKeyValues` | PackageEditor/RegistryFunctions.cs:71-170 | One key appends its header, all its values and an empty line, or nothing when it is the top key or has no known root |
| `RegTransfer.RegWriter.WriteValues` | PackageEditor/RegistryFunctions.cs:98-168 | The values of a key are appended in order |
| `RegTransfer.ExportVirtualRegistryToFile` | PackageEditor/RegistryFunctions.cs:34-50 | The file is the header, an empty line and the sections of the listing of the tree, letter by letter as `RegFormat` has them |
| `RegTransfer.RegImporter.ImportVirtualRegistryFromFile` | PackageEditor/RegistryFunctions.cs:172-222 | The import fails exactly when reading the file fails; either way the registry has the keys read until then and the keys above them, under the roots chosen one after the other |
| `RegTransfer.RegImporter.ChooseRoot` | PackageEditor/RegistryFunctions.cs:185-196 | The root of a key is the remembered one, or the first match of a search |
| `RegTransfer.RegImporter.SetKnownValues` | PackageEditor/RegistryFunctions.cs:205-214 | Values of a known kind are set in order, unknown ones are passed over |
| `RegTransfer.KnownKept` | PackageEditor/RegistryFunctions.cs:205-214 | Exactly the values of unknown kind are left out, and the others keep their order |
| `RegRoots.CacheAgrees` | PackageEditor/RegistryFunctions.cs:185-196 | The remembered root equals a fresh first-match search except exactly when it is `HKEY_CURRENT_USER` and the key starts with that root's `Software\Classes` |
| `RegRoots.FirstMatchOf` | PackageEditor/RegistryFunctions.cs:188-195 | A search finds the root in front of any rest, except that the user root followed by `\Software\Classes` is taken for the classes root |
| `RegRoots.FirstMatchInverts` | PackageEditor/RegistryFunctions.cs:81-200 | A search with nothing remembered undoes the export naming of a key if and only if the root is written as in the table and the key is not one of the user's own that starts with `Software\Classes` |
| `RegRoots.KeyBack` | PackageEditor/RegistryFunctions.cs:185-201 | In any position of a file, a key gets its name back if and only if its root is canonical, its turn is right and nothing of it was trimmed |
| `RegRoots.FindExportName` | PackageEditor/RegistryFunctions.cs:81-96 | The loop over the table gives the name with the first virtual root that fits, ignoring case, replaced by the real one |
| `RegSections.ReadPrintedFile` | PackageEditor/RegFile.cs:71-212 | Calling `readKey` until it returns false on any printed file gives every section once and in order, each with exactly its own values, although each call reads one header ahead |
| `RegSections.RereadSectionsSame` | PackageEditor/RegFile.cs:71-212 | The sections read are those printed if and only if every key name keeps its brackets and every value survives |
| `RegSections.KeyNameRead` | PackageEditor/RegFile.cs:79-81 | A key name comes back from its header line if and only if it has no bracket at either end |
| `RegSections.ReadAllMidway` | PackageEditor/RegFile.cs:71-212 | From any point inside a section, with a pending key and values already read, reading on gives that section and all later ones |
| `RegSections.NextPrinted` | PackageEditor/RegFile.cs:96-201 | A printed value, wrapped over any number of lines, is read as one entry and the reader stands behind its last line |
| `RegFile.RegFileReader.ReadKey` | PackageEditor/RegFile.cs:71-212 | The reader's state after a call, its result and its failures are those of the pending key and the unread lines; reading on until the end terminates, because each call that returns a key leaves fewer unread lines and pending keys |
| `RegFile.RegFileReader.ReadEntry` | PackageEditor/RegFile.cs:94-201 | One value line with its continuations: the cursor moves behind them |
| `RegFile.RegFileReader.ReadContinuation` | PackageEditor/RegFile.cs:98-113 | The continuation loop joins the lines up to the first without a backslash, and fails when the file ends first |
| `RegFile.ReadValue` | PackageEditor/RegFile.cs:133-200 | Branch by branch for the eight kinds, with the failures of the decoding: the imperative form gives the value that the round trip theorems are about (`ParsePrinted`, `RereadSame`) |
| `LineWrap.JoinWrapped` | PackageEditor/RegFile.cs:98-113 | Joining a wrapped value gives the original line, for any prefix and any text without blanks and backslashes, and leaves the following lines unread |
| `LineWrap.ByteArrayFormatString` | PackageEditor/RegFile.cs:215-229 | The insertion loop terminates and gives the text broken after the first length and then after every 75 characters |
| `LineWrap.WrapIsLines` | PackageEditor/RegFile.cs:215-229 | The text with its breaks is the lines of the file |
| `LineWrap.BreaksBetweenBytes` | PackageEditor/RegFile.cs:220-227 | Lines break between bytes only |
| `LineWrap.ColumnLimit` | PackageEditor/RegFile.cs:220-227 | Every line has at most 80 columns if and only if the prefix has at most 76, or the value is so short that it fits behind a longer one |
| `RegText.UnescapeEscape` | PackageEditor/RegFile.cs:147-151 | The two global replacements of the reader undo the two of the writer, for every string |
| `RegText.FirstPass` | PackageEditor/RegFile.cs:149-149 | The first replacement turns exactly the escaped quotes back, in spite of runs of backslashes in front of them |
| `RegText.SecondPass` | PackageEditor/RegFile.cs:150-150 | The second replacement then halves every run of backslashes |
| `RegText.ScanInvertsPrint` | PackageEditor/RegFile.cs:114-133 | Scanning a printed name followed by `=` and any rest gives exactly this name and this rest, also for the empty name, `@`, and names with quotes, backslashes or `=` |
| `RegText.ScanName` | PackageEditor/RegFile.cs:114-133 | The scanning loop gives the recursive scan, including its failure at the end of the line |
| `HexComma.RoundTrip` | PackageEditor/RegFile.cs:234-259 | Decoding the printed bytes gives the bytes, for all byte arrays |
| `HexComma.HexCommaToByteArray` | PackageEditor/RegFile.cs:249-259 | The decoding loop gives one byte for every three characters, and fails where a character is no hex digit or is missing |
| `HexComma.ByteArrayToHexComma` | PackageEditor/RegFile.cs:234-247 | The printing loop gives two digits for each byte, with commas between |
| `RegNumbers.DWordRoundTrip` | PackageEditor/RegFile.cs:153-155 | Eight hex digits in two's complement give back every 32-bit number |
| `RegNumbers.QWordRoundTrip` | PackageEditor/RegFile.cs:163-170 | Eight bytes, lowest first, give back every 64-bit number |
| `Utf16.RoundTrip` | PackageEditor/RegFile.cs:171-179 | Decoding the encoded bytes gives the string if and only if it is well-formed UTF-16 |
| `RegValueRoundTrip.ParsePrinted` | PackageEditor/RegFile.cs:133-200 | What the reader makes of any printed value: the value itself, its repaired text, or a failure |
| `RegValueRoundTrip.RereadSame` | PackageEditor/RegFile.cs:145-200 | A value comes back as it was if and only if it survives: its kind is supported and its strings are well-formed, for lists also not empty and without NUL |
| `RegValueRoundTrip.RereadMulti` | PackageEditor/RegFile.cs:180-196 | A list of strings comes back if and only if each element is well-formed, not empty and free of NUL; the empty list does |
| `RegValueRoundTrip.EmptyStringBreaks` | PackageEditor/RegistryFunctions.cs:134-146 | One empty element anywhere in a list makes its hex data undecodable |
| `RegValues.PrefixesUnambiguous` | PackageEditor/RegFile.cs:136-143 | No value starts with two of the type prefixes, so the order of the dictionary does not matter |
| `RegValues.KindOfPrefix` | PackageEditor/RegFile.cs:136-143 | The loop over the prefixes finds the kind whose prefix the value has |
| `RegValues.PrintValue` | PackageEditor/RegistryFunctions.cs:98-167 | A value is printed as the entry of its name, tag and wrapped data, for all kinds |
| `RegValues.MultiText` | PackageEditor/RegistryFunctions.cs:134-143 | The loop over the strings of a list |
| `TextLines.LinesKept` | PackageEditor/RegistryFunctions.cs:44-48 | Reading written lines gives the lines if and only if none contains a line break |
| `RegFormat.FileWritten` | PackageEditor/RegistryFunctions.cs:44-47 | The text of any file: the title `Windows Registry Editor Version 5.00`, an empty line, and for each key under a known root its name in brackets, its values and an empty line |
| `RegFormat.LineWritten` | PackageEditor/RegistryFunctions.cs:44-46 | Every line ends in CR and LF |
| `RegFormat.ValuesWritten` | PackageEditor/RegistryFunctions.cs:98-168 | The lines of the values of a key stand one after the other |
| `RegFormat.NamesWritten` | PackageEditor/RegistryFunctions.cs:81-96 | The name of any key in the file: the first of `%CurrentUser%_Classes`, `%CurrentUser%`, `MACHINE` and `USER` that starts it, in any case, replaced by `HKEY_CURRENT_USER\Software\Classes`, `HKEY_CURRENT_USER`, `HKEY_LOCAL_MACHINE` and `HKEY_USERS`, and none when it starts with none |
| `RegFormat.NamesRead` | PackageEditor/RegistryFunctions.cs:185-200 | The name an import gives to any key of a file, after a key of any root: the real root in front, in exactly its case, replaced by the virtual one |
| `RegFormat.NameWritten` | PackageEditor/RegistryFunctions.cs:104-109 | The default value is `@`, every other name stands in quotes |
| `RegFormat.TextEscaped` | PackageEditor/RegistryFunctions.cs:104-105 | Backslashes and quotes get a backslash in front, every other character stays |
| `RegFormat.ShortWritten` | PackageEditor/RegistryFunctions.cs:124-167 | Numbers, strings and values without data take one line: `dword:` and eight digits, `hex(b):` and eight bytes, the escaped text in quotes, `hex(0):`, or nothing for a kind the writer does not know |
| `RegFormat.LongWritten` | PackageEditor/RegistryFunctions.cs:118-147 | Binary data, expandable strings and lists are written as bytes behind `hex:`, `hex(2):` and `hex(7):`, broken into lines; an expandable string ends in a NUL |
| `RegFormat.ListWritten` | PackageEditor/RegistryFunctions.cs:134-147 | A list is the bytes of each text and a NUL, and one more NUL at the end; an empty text leaves a comma without digits |
| `RegFormat.LinesBroken` | PackageEditor/RegFile.cs:215-229 | Line by line: the first has as much as fits behind its prefix, each other two blanks and 75 characters, and all but the last end in a backslash |
| `RegFormat.BytesWritten` | PackageEditor/RegFile.cs:234-247 | Each byte is two lower-case hex digits, the high one first, with commas between the bytes |
| `RegFormat.BytesRead` | PackageEditor/RegFile.cs:249-259 | For any text: bytes are read from it if and only if there is one for every three characters, and the first two of these are its hex digits, in upper or lower case |
| `RegFormat.AnyCase` | PackageEditor/RegFile.cs:249-259 | The case of the digits makes no difference to what is read, and neither to whether it can be read |
| `RegFormat.DWordWritten` | PackageEditor/RegistryFunctions.cs:124-126 | The eight digits of a 32-bit number, the most significant first, negative ones counted down from 2^32 |
| `RegFormat.DWordAnyCase` | PackageEditor/RegFile.cs:153-155 | The number is read whatever the case of its digits |
| `RegFormat.QWordWritten` | PackageEditor/RegistryFunctions.cs:148-155 | The eight bytes of a 64-bit number, the least significant first |
| `RegFormat.UnitsWritten` | PackageEditor/RegistryFunctions.cs:128-129 | Each code unit of a text is written with its low byte first |
| `RegFormat.UnitsKept` | PackageEditor/RegistryFunctions.cs:128-129 | A text is written as it is, but for U+FFFD in place of each half of a surrogate pair whose other half is missing |
| `CaseFold.FoldsSame` | PackageEditor/FileSystemEditor.cs:239-254 | Two names are taken for the same if and only if they differ in the case of ASCII letters only |
| `SaveTree.SaveIsRight` | PackageEditor/FileSystemEditor.cs:146-206 | From every tree with the invariant: saving leaves in the folders exactly the live files if and only if none of them clashes, that is, has the name of a deleted folder, or is a kept package file in a folder named like a removed file |
| `SaveTree.SaveAgain` | PackageEditor/FileSystemEditor.cs:146-206 | For any tree with the invariant and any package, also one the tree was already saved to: saving leaves exactly the live files if and only if no live file clashes, each is from disk or was in the package, and every other name of the package is below a deleted folder or a removed file or still in a list |
| `SaveTree.SavedAny` | PackageEditor/FileSystemEditor.cs:146-206 | The same name by name, with no assumption on the package |
| `SaveTree.SavedTwice` | PackageEditor/FileSystemEditor.cs:146-206 | Saving the same tree twice in a row changes nothing the second time, neither names nor flags nor bytes, clashes or not |
| `SaveTree.SavedContent` | PackageEditor/FileSystemEditor.cs:157-187 | After any save, a name that a folder lists has the flags and bytes its live entry says, and any other name what it had before |
| `SaveTree.SavedName` | PackageEditor/FileSystemEditor.cs:146-206 | For each name with a folder: it is in the saved package if and only if it is live and does not clash, and then with the flags of its live entry, and with the bytes of the file on disk that entry comes from, or those it had in the package |
| `SaveTree.SavedTopName` | PackageEditor/FileSystemEditor.cs:196-206 | Names directly in the top folder are not saved: the package keeps them unless a deleted folder has the name |
| `SaveTree.ApartNoClash` | PackageEditor/FileSystemEditor.cs:146-194 | With no name used for a file and a folder nothing clashes |
| `SaveTree.OneAfterTheOther` | PackageEditor/FileSystemEditor.cs:148-192 | Saving one part of the tree and then another, none of whose folders is above one of the first, is saving both: no later step undoes an earlier one |
| `SaveTree.OneFolderSaved` | PackageEditor/FileSystemEditor.cs:157-187 | Saving the files of one folder, for any package before it |
| `SaveTree.GoneFolderSaved` | PackageEditor/FileSystemEditor.cs:150-154 | Deleting a deleted folder stands for everything below it |
| `SaveTree.AllChildren` | PackageEditor/FileSystemEditor.cs:190-190 | A folder is itself and what is in its children, in an order in which nothing is above what was saved before |
| `FileLists.AllSaved` | PackageEditor/FileSystemEditor.cs:157-187 | Saving the files of a folder makes each of its names in the package what the list says, whatever the order of the list; all other names stay, except those below a removed one |
| `FileSystemEditor.SaveFolders` | PackageEditor/FileSystemEditor.cs:146-194 | The loop over the children, with its recursion, saves exactly what is below them, and asks the package for exactly the folders below them that the user added as empty ones and that are not deleted |
| `FileSystemEditor.SaveFiles` | PackageEditor/FileSystemEditor.cs:157-187 | The loop over the files applies the steps in order |
| `FileSystemEditor.FileSystemEditor.OnPackageSave` | PackageEditor/FileSystemEditor.cs:196-206 | All folders but the top one are saved, the package is asked for exactly the empty folders that were added and not deleted since, and the tree stays valid for further edits |
| `EditRuns.WholeSession` | PackageEditor/FileSystemEditor.cs:98-726 | After opening a package, any edits and the first save, the package has in the folders exactly the live files that do not clash, with their flags, and with the bytes they had in the opened package or those of the file on disk they come from |
| `EditRuns.LaterSave` | PackageEditor/MainForm.cs:592-607 | Any save of any session, with any number of edits and saves since the opening: the exact condition for it to be right; each name wrongly kept was added from disk since the opening, and each live name lost without a clash was in the opened package and had been lost by a save before |
| `EditRuns.EveryState` | PackageEditor/FileSystemEditor.cs:443-726 | Every state of every session of openings, edits and saves in any order has the invariant: sibling names unique ignoring case, deleted folders closed downwards, at most one live file per name |
| `EditRuns.StillCovers` | PackageEditor/FileSystemEditor.cs:98-726 | Until the next opening the files of the tree that are not from disk are those of the package that was opened, whatever is edited and saved |
| `EditRuns.SavedUnedited` | PackageEditor/FileSystemEditor.cs:98-206 | Opening and saving without edits gives back every name of the package and no other, each with the flags that the listing tells and with its bytes, and asks for no empty folder |
| `EditRuns.RemovedTooLate` | PackageEditor/FileSystemEditor.cs:574-596 | When the tree is kept after a save, a live file removed then stays in the package at the next save if and only if it came from disk, is the only one of its name, and no deleted folder or removed file stands in the name: the list forgets it |
| `EditRuns.RemovedSaved` | PackageEditor/FileSystemEditor.cs:574-596 | For any package: a removed live file is in it after saving if and only if it was, came from disk, is the only one of its name, and nothing deleted stands in the name |
| `EditRuns.RemovedInTime` | PackageEditor/FileSystemEditor.cs:574-596 | As long as the package is the opened one, a removed file is not in the saved package |
| `EditRuns.AddedSaved` | PackageEditor/FileSystemEditor.cs:443-563 | End to end: a file added from disk, alone or in a folder, is in the saved package if and only if no folder of exactly its name was in the way and no deleted folder has its name |
| `EditRuns.AddedContent` | PackageEditor/FileSystemEditor.cs:172-184 | End to end: it is saved with the flags of its name, and with its bytes, unless it was added alone over a live file from disk: then with the bytes of that one |
| `EditRuns.NewBytesSaved` | PackageEditor/FileSystemEditor.cs:454-490 | So the bytes of the file just added are saved if and only if there was no live file from disk of its name, or that one comes from the same path, or it was added with its folder |
| `EditRuns.FolderRemovedSaved` | PackageEditor/FileSystemEditor.cs:601-626 | End to end, for any package: after a folder is removed and the tree saved, nothing at or below its name is in the package, and every other name with a folder is there exactly if it would be without the removal, with the same flags and bytes |
| `Clashes.FolderTakesFile` | PackageEditor/FileSystemEditor.cs:148-154 | The clash is reached: a file added next to a deleted folder, called like it but for the case, is live and lost at the save |
| `Clashes.FileTakesFolder` | PackageEditor/FileSystemEditor.cs:161-176 | So is the other one: a folder added again that has a file and a folder whose names differ in case only; the live package files in that inner folder are lost |
| `FileSystemEditor.FileSystemEditor.AddFileOrFolderRecursive` | PackageEditor/FileSystemEditor.cs:443-563 | Whatever the user answers, only names at and below the new entry change, no folder disappears or gets deleted, and the invariant stays; it is given up only when something live is in the way, and otherwise the tree has exactly the entry, with the flags and paths of its files (`Put`). The tree becomes dirty whenever it grew, and as `Touches` says when the entry was added as a whole |
| `FileSystemEditor.FileSystemEditor.AddDiskFolder` | PackageEditor/FileSystemEditor.cs:504-562 | The same for a folder from disk, over a new or an existing, possibly deleted, folder: dirty exactly when it has a file or a folder the tree did not have |
| `FileSystemEditor.FileSystemEditor.AddDiskFile` | PackageEditor/FileSystemEditor.cs:446-499 | A file from disk overwrites a live one from disk in place, marks one of the package and is added behind it, or is refused; the tree becomes dirty except for the first |
| `FileSystemEditor.FileSystemEditor.AddPaths` | PackageEditor/FileSystemEditor.cs:390-441 | A deleted folder takes nothing; another one the entries one after the other, each as said above; the tree becomes dirty when one of them touches it |
| `DirtyFlag.NextEntry` | PackageEditor/FileSystemEditor.cs:546-555 | After one more entry of a folder, added or given up: what the flag says about the tree before the folder was entered |
| `DirtyFlag.TouchesBefore` | PackageEditor/FileSystemEditor.cs:504-555 | In a folder that was entered, a file always sets the flag, also where the user overwrites one from disk |
| `DirtyFlag.GrewTwice` | PackageEditor/FileSystemEditor.cs:443-563 | Growth is never undone by a later entry |
| `DirtyFlag.QuietReturn` | PackageEditor/FileSystemEditor.cs:516-525 | A deleted folder that comes back with an empty one of its name changes the tree and does not set the flag |
| `FileSystemEditor.FileSystemEditor.OnFolderTreeSelect` | PackageEditor/FileSystemEditor.cs:287-342 | Showing a folder: a deleted one keeps exactly its files of the package, in order, and loses those from disk; any other and all else stay, and it does not count as a change |
| `DiskTree.NextMidway` | PackageEditor/FileSystemEditor.cs:546-555 | One more entry of a folder from disk: which names are live, which folders are deleted and which are there |
| `DiskTree.LastMidway` | PackageEditor/FileSystemEditor.cs:529-562 | After all entries: live are the files of the disk folder that no folder blocks and everything that was live outside the folders added again |
| `DiskTree.ConflictBefore` | PackageEditor/FileSystemEditor.cs:546-555 | No entry of a folder is asked about because of the entries before it |
| `DiskAdd.FileIsPut` | PackageEditor/FileSystemEditor.cs:446-490 | Adding a file changes the live file of its own name only and leaves flags and source of all others; it is live unless a folder has exactly this name, with its own flags, and with its own path or, over one from disk, the path of that one |
| `DiskTree.DiskFlagsAre` | PackageEditor/FileSystemEditor.cs:478-482 | A file from disk has the flag of files, the preload flag if and only if its name ends in `.dll` in lower case, and no other |
| `DiskAdd.FileOfIs` | PackageEditor/FileSystemEditor.cs:473-486 | The entry of a file from disk: in this folder, with its name, length, path and flags, and live |
| `DiskAdd.FilePutSizes` | PackageEditor/FileSystemEditor.cs:270-280 | The folder and those above it grow by its length modulo 2^64, unless it overwrites one from disk or is not added |
| `DiskAdd.UsualRootName` | PackageEditor/FileSystemEditor.cs:660-674 | Names for the top folder that are not asked back: two characters with an underscore behind, or more with a percent sign in front |
| `DiskAdd.EnteredMidway` | PackageEditor/FileSystemEditor.cs:504-527 | A folder added again comes back, its own files all deleted, what is below it untouched |
| `DiskAdd.NewMidway` | PackageEditor/FileSystemEditor.cs:532-541 | A new folder is there, empty, and changes nothing else |
| `FileSystemEditor.FileSystemEditor.RemoveFiles` | PackageEditor/FileSystemEditor.cs:574-600 | The folder loses exactly its live files of the selected names; every other live file stays as it is, the files of the package stay listed, and nothing else in the tree changes; a deleted folder then loses its files from disk |
| `FileSystemEditor.FileSystemEditor.RemoveFolder` | PackageEditor/FileSystemEditor.cs:601-626 | A folder is deleted afterwards if and only if it was, or is the removed one or below it; the removed folder keeps exactly its files of the package, in order, and all other lists, sizes and children stay |
| `FileSystemEditor.MarkDeleted` | PackageEditor/FileSystemEditor.cs:601-624 | The recursion over children and siblings marks exactly the folder and everything below it |
| `FileSystemEditor.WithoutAdded` | PackageEditor/FileSystemEditor.cs:307-342 | The backward loop leaves exactly the files of the package, in order |
| `FileSystemEditor.FileSystemEditor.AddEmptyDir` | PackageEditor/FileSystemEditor.cs:643-726 | Refused exactly when the parent is deleted, the name is empty, has a backslash or is that of a folder that is not deleted, or the user takes an odd name back; otherwise there is such a folder, not deleted and without live files, and nothing else changed. Exactly new folders are noted as added empty, and only they set the flag |
| `FileLists.ReplacedKeeps` | PackageEditor/FileSystemEditor.cs:454-490 | Adding a file to a list keeps one live file per name, makes its name live and no other |
| `FileLists.RemovedIsDead` | PackageEditor/FileSystemEditor.cs:574-596 | Removing takes a name away if the last file called exactly so is live, and changes no other name |
| `FileLists.RemovedAllExact` | PackageEditor/FileSystemEditor.cs:574-596 | After several files are removed, a live file is still listed if and only if it was and its name is not one of the selected |
| `FileLists.FromPackagePicked` | PackageEditor/FileSystemEditor.cs:326-331 | Dropping the files from disk leaves exactly the others, each at a later place than the one before |
| `FileLists.FromPackageKeeps` | PackageEditor/FileSystemEditor.cs:326-331 | Dropping the files from disk keeps the list proper and loses no file of the package |
| `FolderTree.NewFolder` | PackageEditor/FileSystemEditor.cs:239-254 | A new folder whose name no sibling has, not even in another case, keeps all names unique |
| `FolderTree.MarkedBelow` | PackageEditor/FileSystemEditor.cs:565-626 | Marks that are passed on to children reach everything below, so saving may stop at a deleted folder |
| `FileSystemEditor.FileSystemEditor.OnPackageOpen` | PackageEditor/FileSystemEditor.cs:98-127 | For any listing with parents first and distinct names: the tree has exactly its folders, each with exactly its files in the order of the listing, with name, flags and size as listed, and with the size of all that is in it modulo 2^64; the invariant holds |
| `OpenTree.EachOnce` | PackageEditor/FileSystemEditor.cs:112-115 | Each entry of the listing is in the tree exactly once, in the folder of its name; a file with its listed name, flags and size, live and not from disk |
| `OpenTree.FolderLoaded` | PackageEditor/FileSystemEditor.cs:239-281 | After a folder of the listing: a new folder, with no files and no size from entries before it |
| `OpenTree.FileLoaded` | PackageEditor/FileSystemEditor.cs:256-281 | After a file of the listing: its folder has it as the last file, and the folder and all above have its size |
| `OpenTree.TotalIsFiles` | PackageEditor/FileSystemEditor.cs:270-280 | The size of a folder is the sum of the files in it and below if and only if it and the folders in it are listed at size 0; otherwise it is more |
| `OpenTree.LoadedCovers` | PackageEditor/FileSystemEditor.cs:98-115 | The opened tree lists exactly the files of the package |
| `FileSystemEditor.AddEntry` | PackageEditor/FileSystemEditor.cs:208-285 | The walk along the name and the new node or file at its end; a child of exactly the name takes its place and nothing is added |
| `FileSystemEditor.ClimbWithSize` | PackageEditor/FileSystemEditor.cs:270-280 | The loop up the parents adds the size, modulo 2^64, to the folder and exactly those above it |
| `FileSystemEditor.GetFullNodeName` | PackageEditor/FileSystemEditor.cs:1013-1031 | The walk up the parents gives, as a string, the non-empty components of the name of the node joined by backslashes |
| `Paths.NameKept` | PackageEditor/FileSystemEditor.cs:1013-1031 | This is the listed name if and only if that has no empty component, or is empty |
| `Paths.NameOfChild` | PackageEditor/FileSystemEditor.cs:1025-1031 | The name of a new entry is that of its folder and one component more, and splits into just these components |
| `LecHash.PerfectIndex` | Players/scripts/LECHash.c:31-74 | For every table of distinct codes below 0x2000, at most two in a slot, the second ones with valid and different side slots that no code hashes to: in the finished table every code is looked up as its own number |
| `LecHash.BuildHashTable` | Players/scripts/LECHash.c:47-65 | The building loop, in place: after each code the table holds exactly the codes so far |
| `LecHash.HashInjective` | Players/scripts/LECHash.c:31-36 | Codes with the same hash and the same high bits are the same |
| `LecHash.BuildAndCheck` | Players/scripts/LECHash.c:76-91 | Building the table and looking up every code |
| `LomHash.PerfectIndex` | Players/scripts/LOMHash.c:13-55 | The same for the small table: codes below 0x400, 32 slots |
| `LomHash.BuildHashTable` | Players/scripts/LOMHash.c:25-44 | The building loop of the small table |
| `LomHash.HashInjective` | Players/scripts/LOMHash.c:13-16 | The same for the hash of the small table |
| `LomTable.TableBuildable` | Players/scripts/LOMHash.c:4-11 | The 32 codes of the program meet the conditions |
| `LomTable.PrintedIndex` | Players/scripts/LOMHash.c:57-73 | So the program finds no failure: each of its codes is looked up as its own number |
| `LecTable.TableBuildable` | Players/scripts/LECHash.c:4-27 | The 293 codes of the program meet the conditions: seven slots are shared, and the seven second codes have side slots of their own |
| `LecTable.PrintedIndex` | Players/scripts/LECHash.c:76-91 | So the program finds no failure: each of its 293 codes is looked up as its own number |
| `LecTable.SidesAre` | Players/scripts/LECHash.c:29-45 | The side slots 347, 482, 511, 448, 494, 508 and 486 of these codes, which no code has as its slot |
| `LecTable.CheckedAt` | Players/scripts/LECHash.c:31-36 | The slot of each of the 293 codes: the code that the table of first codes names, or the earlier one of its pair |
| `HuffTable.AddSecond` | Players/scripts/LECHash.c:54-58 | Storing a second code of a slot keeps what the table holds for all codes before |
| `HuffTable.AddFirst` | Players/scripts/LECHash.c:59-63 | Storing a first code does, too |
| `HuffTable.Lookup` | Players/scripts/LECHash.c:67-74 | The words a lookup meets in a finished table |
| `MruList.HoldsMostRecent` | PackageEditor/MainForm.cs:2489-2555 | After any sequence of files the list is a start of all files by recency, without repetitions ignoring case; it has at most eight entries, and at least seven when there are so many files |
| `MruList.RecencyIs` | PackageEditor/MainForm.cs:2489-2555 | The files by recency: each entry is the file at its last use, later uses first, and every use is of a file, in any case, whose entry stands for that or a later use |
| `MruList.UsedAgain` | PackageEditor/MainForm.cs:2540-2555 | Using a file that stands in one of the first seven slots, in any case, moves its one entry to the front, in the new spelling, and changes nothing else but for an eighth entry, which is dropped |
| `MruList.UsedNew` | PackageEditor/MainForm.cs:2540-2555 | Using any other file puts it before the first seven, and no second entry is called so in another case |
| `MruList.TooShort` | PackageEditor/MainForm.cs:2489-2555 | When it is shorter than the eight most recent files: exactly when there are eight and the file used last was among the first seven already |
| `MruList.Shrinks` | PackageEditor/MainForm.cs:2540-2555 | A use makes the list shorter if and only if it is full and the file stands in one of the first seven slots |
| `MruList.MRU.AddFile` | PackageEditor/MainForm.cs:2540-2555 | The numbered values represent the list moved to front: the file, then the first seven entries without it, in order |
| `MruList.MovedToFront` | PackageEditor/MainForm.cs:2489-2555 | Deleting, dropping slot 7 and shifting up to the first hole is moving to the front |
| `MruList.MRU.InsertTopItem` | PackageEditor/MainForm.cs:2489-2521 | Everything before the first hole moves up by one, everything behind it stays |
| `MruList.MRU.MoveUp` | PackageEditor/MainForm.cs:2507-2516 | The renaming loop from the last entry loses none |
| `MruList.MRU.DeleteEntries` | PackageEditor/MainForm.cs:2543-2551 | Exactly the entries for the file go, whatever the order of enumeration |
| `MruList.MRU.GetItems` | PackageEditor/MainForm.cs:2523-2538 | The existing files, in the order of the list |
| `CommandSplice.Reread` | PackageEditor/MainForm.cs:1385-1437 | Reading the saved property again gives the saved command if and only if it is not empty, there was no own command, or removing takes all own commands away |
| `CommandSplice.SavedCommands` | PackageEditor/MainForm.cs:1399-1408 | The commands after saving, empty items dropped: the new command at the end when there was none, and otherwise the old items with the replaced ones, in order |
| `CommandSplice.ReplaceFlat` | PackageEditor/MainForm.cs:1403-1404 | What the global replacement does to the items: an occurrence directly behind a replaced one is passed over |
| `CommandSplice.ReplacedEach` | PackageEditor/MainForm.cs:1403-1404 | With no two occurrences next to each other, exactly the occurrences are replaced and all other items stay in place |
| `CommandSplice.TidyKeepsCommands` | PackageEditor/MainForm.cs:1405-1406 | Collapsing and trimming separators changes no command |
| `CommandChoices.ShownAfterSave` | PackageEditor/MainForm.cs:1076-1100 | After saving, the editor shows the choices that were saved, if and only if no command was to be removed, there was none, or all own ones are taken away |
| `CommandChoices.StartChoice` | PackageEditor/MainForm.cs:1389-1398 | Every integration choice is a command the editor takes for its own and shows as that choice |
| `CommandChoices.StopChoice` | PackageEditor/MainForm.cs:1414-1427 | The same for every cleanup choice |
| `CommandChoices.GetCommand` | PackageEditor/MainForm.cs:1181-1222 | The loops over the items find the first one of the form of the editor's own commands, and none exactly when no item has this form |
| `OwnCommands.OwnStart` | PackageEditor/MainForm.cs:1181-1200 | A start command is taken for the editor's own if and only if it is `%MyExe%>` and then `-Quiet`, `-Integrate:once` and `-Vintegrate`, each at most once, in this order, with any blanks before it, and the last two not both missing |
| `OwnCommands.OwnStop` | PackageEditor/MainForm.cs:1202-1222 | A clean-up command is if and only if it is `%MyExe%>` and then `-Confirm`, `-Quiet`, `-Remove:Reg` and `-Remove` in the same way |
| `OwnCommands.OtherWord` | PackageEditor/MainForm.cs:1181-1222 | A command with any other word in it, directly behind `%MyExe%>` or behind a blank, is not |
| `OwnCommands.OthersKept` | PackageEditor/MainForm.cs:1385-1437 | Saving any choice keeps exactly the commands that are not the editor's, in order |
| `OwnCommands.NothingChosen` | PackageEditor/MainForm.cs:1385-1437 | With no command of the editor in a property and none chosen, saving leaves its commands as they are |
| `CommandChoices.StartShapeShown` | PackageEditor/MainForm.cs:1076-1086 | Any start command of the editor, however it is spelled, is shown as what its last option says |
| `CommandChoices.StopShapeShown` | PackageEditor/MainForm.cs:1088-1100 | Any clean-up command of the editor is shown with exactly the options it has, and of the two last ones by the last |
| `CommandChoices.StartText` | PackageEditor/MainForm.cs:1389-1398 | The command saved for each integration choice, as a text |
| `CommandChoices.CleanupText` | PackageEditor/MainForm.cs:1414-1427 | The command saved for each clean-up choice, as a text |
| `CommandChoices.Splice` | PackageEditor/MainForm.cs:1399-1407 | The in-place edit of the property string: the commands it has afterwards, and whether reading it again gives the new command |
| `CommandChoices.Package.OnPackageSave` | PackageEditor/MainForm.cs:1385-1437 | Both properties are saved, each from its own old command, and whatever is chosen keep every command that is not of the editor's form, in order |
| `ServerSingleton.OneInstance` | WinPlayer/ServerRequest.cs:345-361 | In every interleaving of any threads at most one instance is constructed, a stored instance is never replaced, and everything any thread returns, now or later, is the stored and only constructed instance |
| `ServerSingleton.StepKeepsInv` | WinPlayer/ServerRequest.cs:345-361 | Every step of every thread keeps the invariant of lock, field and constructed instances |
| `ServerSingleton.NoDeadlock` | WinPlayer/ServerRequest.cs:351-357 | Whenever a thread is blocked, another one owns the lock, is inside it, can move, and frees it after at most four steps of its own |
| `ServerSingleton.Completes` | WinPlayer/ServerRequest.cs:345-361 | A thread that nobody locks out returns an instance after a fixed number of its own steps |
| `FileFlags.UnchangedBoxes` | PackageEditor/FilesEditing/FileProperties.cs:32-88 | Accepting the boxes as they were opened leaves a file alone if and only if its word has no bits beside the flags of the dialog; such bits are lost |
| `FileFlags.ShownAgain` | PackageEditor/FilesEditing/FileProperties.cs:58-101 | Opening the dialog again shows every box as it was set, and an undecided one as it was before |
| `FileFlags.MinMax` | PackageEditor/FilesEditing/FileProperties.cs:32-41 | The intersection and union over the files tell for each flag whether all, none or some have it |
| `FileFlags.OpenBoxes` | PackageEditor/FilesEditing/FileProperties.cs:58-63 | Each box shows for its own bit whether all, none or some of the files have it |
| `FileFlags.Accept` | PackageEditor/FilesEditing/FileProperties.cs:66-87 | Each flag is set, cleared or left in every file as its box says |
| `FileFlags.BoxesAreBits` | PackageEditor/FilesEditing/FileProperties.cs:66-87 | Which box sets, clears or leaves which bit: file 0, deleted 1, preload 3, disconnected 4, package 5, RAM mode 9, and no other bit stays |
| `MagicScan.IsCameyoFile` | WinPlayer/Utils.cs:288-333 | True if and only if the file has at least 1048576 bytes and BE BA CA DE stands as a whole in its last 32768 bytes; the last place, which the scan leaves out, is covered by the first test |
| `MagicScan.Matches` | WinPlayer/Utils.cs:299-307 | The comparison loop finds exactly these four bytes |

## Left out

- The native packager, icons, sandbox flags, network, processes, encryption and all dialogs and list views.
- Registry handles and streams: a registry is a tree for the export and a map of values for the import; a file is a text.
- Values of expandable strings are what `GetValue` returns; whether it expands variables is outside the model.
- Names of keys and values are compared exactly when the import stores them; the system ignores case there.
- The texts of warnings and error messages.
- The encoding of the `.reg` file: reading gives the characters that were written.
- Bytes in hex data are two hex digits or an error; `Convert.ToByte` accepts a few more spellings that the exporter never writes.
- Comparisons of the current or invariant culture: prefixes are compared exactly, and case is folded on the ASCII letters.
- A missing or unreadable path on disk, for which adding returns at once.
- Components of names: the tree works on lists of components without backslashes; `Paths` says when the strings of the program are these lists.
- FileSystemEditor.AddEntry: only for names whose folder is in the tree, as listings with parents first and all callers have it; without one the code nests nodes under wrong names.
- FileSystemEditor.FileSystemEditor.OnPackageOpen: needs a listing with parents first and names that differ ignoring case, as the packager gives it.
- Questions to the user are answered in any way; the answer is not a parameter.
- The bytes of files: a file of the package stands for the path of the file on disk it was added from, and for its own bytes otherwise.
- Folders in the package itself: only its files are modelled, and which empty folders it is asked for.
- Resetting `dirty` after a save, which the main form does.
- Sizes after removing and overwriting, which the code does not adjust; adding gives the sizes of `Grown`.
- The parent, the text and the name of a node are fixed when it is created, because the code never changes them afterwards.
- The two loops over files and folders of a disk folder have the same body and are one loop over both lists.
- FileSystemEditor.FileSystemEditor.RemoveFiles: the selected items are their texts.
- The names of values in the list of recent files are numbers, and their enumeration order is any order.
- Flag words are sets of bits, so that `&`, `|` and `~` are set operations.
- MagicScan.IsCameyoFile: reads return all bytes asked for.
- The properties of a package are two strings; a failing `SetProperty` is not modelled.
- Memory ordering: the field of the singleton is volatile, so each access is one step.
- The serializers of other forms, hex dumps, isolation mode helpers and time zone generators, which would only add easy members.
