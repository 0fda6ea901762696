# Wayfarer: what its conversions, stores and protocols keep

Wayfarer is an API client that runs in a browser. This project models, in Dafny 4.11, the parts of it whose
correctness spans several functions or a whole run, and proves what each of them keeps. Run
`dafny verify dfyconfig.toml` in this directory.

The parts, each in modules of its own:

- **The cURL writer and reader** (`CurlWriter`, `CurlReader`, `ShellLexer`, `ShellRoundTrip`, `ShellForms`, `CmdForms`,
  `FormUrlencoded`, `Utf8`, `CurlRoundTrip`, `CurlSayings`, `CurlHearing`, `CurlOptions`, `CurlOutcome`, `CurlCommands`,
  `CurlComplete`). A request is printed as a shell command and read back through shell quoting, curl's option grammar
  and form encoding (sections 5 and 6.2 of the WHATWG URL Standard) or file-name escapes. Two main results: a request is
  read back unchanged if and only if it is sayable; and every command that a shell reader accepts is read as what its
  options say, whichever they are and however they are spelled, with nothing added and nothing lost.
- **Postman addresses and trees** (`Address`, `AddressLaws`, `AddressForms`, `AddressVariables`, `PostmanQuery`,
  `PostmanTree`) and **Insomnia's flat resources** (`InsomniaTree`, `StableSort`). Cutting an address loses nothing,
  exactly up to how many variables; the parts are characterised completely; the query that is exported is the query
  that is sent. The tree walks place each folder once and end on rings; which folders are lifted to the top is exact.
- **The collection store** (`Stores`, `FolderTree`, `Database`, `StoreUndo`, `ImportUndo`, `ImportFiles`,
  `ImportPipeline`, `ManyImports`, `StoreContents`, `StoreCopies`, `StoreEffects`, `StoreRuns`, `StoreOrphans`,
  `StoreSteps`). Four keyed stores, each transaction one atomic method of a class. What imports, deletes, creates and
  saves leave stored is described in full; delete, import and their Undo are inverses, exactly when; duplicates are
  isomorphic copies; for integrity and for "no orphan file" there is an equivalence over runs each.
- **The cookie jar** (`CookieRules`, `CookieHeaders`, `CookieMatching`, `CookieLaws`, `CookieJar`, `CookieRuns`), after
  sections 5.1.3 to 5.4 of RFC 6265: which cookie a header makes, and exactly when none; a bounded list that refines a
  map; a cookie that goes only where the response that set it might have sent it, over the whole life of a page; and a
  store that agrees with the list once the queued writes land, exactly when.
- **The pairing lock** (`Pairing`): the answer to every attempt of every run, from the code and the answers before it,
  and how many wrong codes any interval can hold.
- **The vault protocol** (`VaultStore`, `VaultProtocol`, `VaultView`, `VaultLaws`): over every interleaving of tabs the
  protocol refines a view without keys, so that a passphrase opens the vault, and a secret gives a text, exactly when
  the events of the run say so.
- **The CSV reader** (`Csv`), against every text section 2 of RFC 4180 allows for some records.

Where the original updates in place, the model does too: objects are classes, loops are loops, and each such method is
proved against a specification function or predicate whose laws are the lemmas below.

## Where the code and its promises differ

These are properties the code does not have everywhere. Each has a lemma with a concrete input and an exact condition.

- A GET with a body comes back from its cURL command as a POST (`CurlRoundTrip.GetWithBodyIsPost`); a HEAD with a body
  does come back. The condition is `Sayable` (`CurlRoundTrip.ReadBackIffSayable`). `buildCurl` takes such a request as a
  function; the app hands it none, since `exportBody` (packages/core/src/export/request.ts:38-41) gives GET and HEAD no
  body.
- An address with more than 6,399 variables is not written back as it was (`AddressVariables.TooManyVariables`, and
  `AddressVariables.Lossless` for all addresses).
- A CSV text whose first field begins with a byte order mark (`Csv.FirstMarkIsLost`), or whose last line is one empty
  field without an end (`Csv.LastEmptyIsLost`), is not read back; every other one is (`Csv.RoundTrip`).
- Two cookies can share one stored key, since a path may hold a `|`: then the page holds both and the store one
  (`CookieJar.PipeLosesCookie`). Page and store agree exactly while no two cookies to be stored have one key
  (`CookieJar.StoreAgrees`); without a `|` in a path they always do (`CookieJar.CleanStoreAgrees`).
- A folder or a request can be created in a collection that is gone, deleted in another tab for one, and is stored
  without it (`StoreRuns.FolderOfNoCollection`). Documents have their collections in every state of a run exactly when
  every create had its own (`StoreRuns.RunHasIntegrity`); what that does to an Undo is in `StoreRuns.UndoGivesBack`.
- An Undo can leave a file that no request names: it puts back the files of all that went as soon as one request comes
  back, and the request of another file may have lost its collection (`StoreOrphans.UndoLeavesAFile`). Every state of a
  run is free of such files exactly when every Undo that was taken met the condition of
  `StoreOrphans.UndoLeavesNoOrphan` (`StoreOrphans.RunHasNoOrphan`). Only the Undo of a folder's delete or of an import
  can fail it (`StoreOrphans.CollectionTidies`, `StoreOrphans.OneRequestTidies`).
- An import is undone exactly when every file was named by a request, it replaced a collection or its id was unused, and
  what it took from other collections has them to come back to (`ImportUndo.UndoOfImport`, and
  `ManyImports.UndoOfReceived` for all that one confirmation can hold). It is not where a folder's collection was gone
  and is imported (`StoreRuns.StrayIsLost`).
- A request of a file whose id is that of its folder is in no folder of a copy under new ids
  (`ImportFiles.RequestLosesItsFolder`); the exact condition is in `ImportFiles.RequestsKeepTheirFolder`.
- A copy of a folder that is in a ring with its own parent keeps the original's parent
  (`StoreCopies.RingKeepsItsParent`, and exactly when in `StoreCopies.FolderCopyIsIsomorphic`).
- A request whose folder id two folders share is written into both (`PostmanTree.SharedIdIsWrittenTwice`); every request
  is written as often as `PostmanTree.Copies` says.

## Model

| member | source | states |
|---|---|---|
| `CurlWriter.BuildCurl` | packages/core/src/export/curl.ts:54-77 | the command the imperative writer pushes together, argument by argument, is the command the laws below speak of |
| `CurlWriter.CommentIsOneLine` | packages/core/src/export/curl.ts:47-61 | whatever the refused part is called, the comment is one line: no line break of the name ends it |
| `Utf8.RoundTrip` | packages/core/src/export/curl.ts:8-9 | the bytes of every text decode to that text |
| `FormUrlencoded.RoundTrip` | packages/core/src/export/curl.ts:8-9 | the form parser reads back every list of fields the serializer writes, nameless and empty ones included, in order |
| `FormUrlencoded.SearchParamsRoundTrip` | packages/core/src/import/curl.ts:467 | what a data text is read with as search parameters, less one leading question mark, gives back every list of fields too |
| `ShellLexer.BashWords` | packages/core/src/import/curl.ts:63-118 | the index loop gives exactly the words of the lexer's specification, or its unclosed-quote error |
| `ShellLexer.CmdWords` | packages/core/src/import/curl.ts:126-152 | the same for the reader of cmd's quoting |
| `ShellRoundTrip.LexLine` | packages/core/src/import/curl.ts:63-118 | a line of quoted and plain arguments, parted by blanks or by backslash line breaks, lexes to the words of its arguments |
| `ShellRoundTrip.LexerInvertsQuoter` | packages/core/src/export/curl.ts:3-6 | for every list of texts the lexer gives back the texts of their quoted forms: empty words, quotes, backslashes and line breaks included |
| `ShellRoundTrip.QuoteInLine` | packages/core/src/import/curl.ts:154-160 | a line with a quoted argument is never taken for one cmd wrote |
| `ShellForms.DoubleQuotedIs` | packages/core/src/import/curl.ts:63-118 | a double-quoted text of any parts - characters, escaped ones, kept backslashes, hidden line ends - is what its parts stand for, up to the quote that closes it |
| `ShellForms.AnsiQuotedIs` | packages/core/src/import/curl.ts:22-61 | the same for `$'...'`: lettered escapes, kept backslashes, and code points by octal or hexadecimal digits, read as far as digits go |
| `ShellForms.LexElements` | packages/core/src/import/curl.ts:63-118 | every line of words written in any of bash's forms, piece by piece, is read as the texts of its words |
| `CmdForms.StripMarks` | packages/core/src/import/curl.ts:126-127 | a line is stripped of its carets, and of the line ends they hide, as it was written with them |
| `CmdForms.LexElements` | packages/core/src/import/curl.ts:128-152 | every line of words written in cmd's forms is read as their texts: both ways of a quote inside quotes, a quote outside, backslashes that are themselves |
| `CmdForms.CmdLineIsRead` | packages/core/src/import/curl.ts:126-160 | both together: what is left of cmd's line without its carets is read as its words |
| `CurlReader.ReadOne` | packages/core/src/import/curl.ts:407-438 | one word is read as the option grammar says, with the value it takes; what is left is a tail of the words |
| `CurlReader.ReadShort` | packages/core/src/import/curl.ts:422-436 | the loop over short options that stand together does what the grammar says of the word |
| `CurlReader.ParseCurl` | packages/core/src/import/curl.ts:333-477 | the whole imperative reading, errors included, is the function that the round trip and `CurlComplete.EveryCommandIsRead` are proved of |
| `CurlCommands.CommandsSayCurl` | packages/core/src/import/curl-command.ts:6-8 | a text is taken for a command exactly when it is white space, `curl` or `curl.exe` in any case, and then nothing or white space |
| `CurlHearing.TakeIsHeard` | packages/core/src/import/curl.ts:345-405 | every option with a value, in each form its value can be written, adds exactly what is said with it: header, data or its file, part, login, method, address, or a warning |
| `CurlOptions.ReadGroup` | packages/core/src/import/curl.ts:407-438 | an option by itself, letters together in one word, and a value joined or apart are all read as what they say, in order |
| `CurlOptions.SkippedNames` | packages/core/src/import/curl.ts:163-284 | no option the reader drops with its value is one it reads |
| `CurlOutcome.FinishIs` | packages/core/src/import/curl.ts:441-476 | a reading is finished as exactly what was said: method, address with the data under -G, headers in order, the body by parts, file, form or text, the last login, and every warning in order |
| `CurlCommands.LineIsRead` | packages/core/src/import/curl.ts:333-477 | for every line of `curl` and any options in any order and spelling, the result is the outcome of what they say and nothing else |
| `CurlCommands.SayingIsAll` | packages/core/src/import/curl.ts:407-438 | two lines that say the same are read as one: -XPOST as -X POST and as --request POST |
| `CurlCommands.CutOffIsNotRead` | packages/core/src/import/curl.ts:407-426 | a command that ends in an option which takes a value is refused with that option's name |
| `CurlCommands.DataIsPosted` | packages/core/src/import/curl.ts:358-476 | -d with a text that names no file, joined or apart, is posted as a form, without a warning |
| `CurlComplete.EveryCommandIsRead` | packages/core/src/import/curl.ts:333-477 | the same for every text a shell reader accepts: its words say something, and the result is the outcome of that, or it ends in an option whose value is missing |
| `CurlRoundTrip.CommandWords` | packages/core/src/export/curl.ts:54-77 | a written command is a cURL command, takes bash's reader, and has exactly the words of its arguments |
| `CurlRoundTrip.CommentIsNoCommand` | packages/core/src/import/curl.ts:333-334 | a part whose name cannot be said leaves a comment that is not read as a command |
| `CurlRoundTrip.ReadHeader` | packages/core/src/import/curl.ts:350-357 | a named header is read back as itself exactly when its name and value are sayable |
| `CurlRoundTrip.ReadFileName` | packages/core/src/import/curl.ts:306-317 | every file name is read back from its escaped form in a form part |
| `CurlRoundTrip.RoundTrip` | packages/core/src/import/curl.ts:333-477 | a sayable request comes back with the same method, address, ordered headers and body and no warning; any other request is never read back as itself |
| `CurlRoundTrip.ReadBackIffSayable` | packages/core/src/import/curl.ts:333-477 | for every request: reading the written command gives it back exactly when it is sayable |
| `CurlRoundTrip.GetWithBodyIsPost` | packages/core/src/import/curl.ts:471 | a GET with a body, which the writer takes and the app never hands it, comes back as a POST |
| `Address.Hold` | packages/core/src/export/postman.ts:122-126 | the text with each variable replaced by two characters, and the variables in order, as the one-pass replacement makes them |
| `Address.FrontParts` | packages/core/src/export/postman.ts:140-164 | protocol, login, host, port and path as they are cut off one after the other |
| `Address.AddressParts` | packages/core/src/export/postman.ts:112-174 | the imperative cutting is the function the address laws speak of |
| `AddressLaws.CutIsLossless` | packages/core/src/export/postman.ts:138-173 | for every text, what is cut and written back with its marks is that text |
| `AddressLaws.BackMarked` | packages/core/src/export/postman.ts:127-130 | putting variables back part by part is putting them back in the whole line |
| `AddressForms.CutAgainIffFits` | packages/core/src/export/postman.ts:131-173 | parts written with their marks are cut into those parts again exactly when none holds a mark that would cut it: first # and ?, first slash, last @, last colon or the one after a bracket, protocol without a slash |
| `AddressForms.CutsFit` | packages/core/src/export/postman.ts:131-173 | the parts of every text are such parts |
| `AddressVariables.Lossless` | packages/core/src/export/postman.ts:112-174 | writing the parts back gives the address exactly when it already holds U+E000 or has at most 6,399 variables |
| `AddressVariables.NoVariableIsSplit` | packages/core/src/export/postman.ts:119-130 | without U+E000 and with at most 6,399 variables, the variables found in the parts, in order, are those of the address |
| `AddressVariables.TooManyVariables` | packages/core/src/export/postman.ts:119-130 | an address of n variables and nothing else is written back exactly when n is below 6,400 |
| `PostmanQuery.WriteUrl` | packages/core/src/export/postman.ts:182-196 | the shift-and-push loop gives the raw text, the parts without the query, and the merged query |
| `PostmanQuery.SentQueryIsKept` | packages/core/src/export/postman.ts:178-192 | the entries that are not disabled are the query of the address in order; the disabled ones are the switched-off rows in order |
| `PostmanQuery.DisabledStandsInPlace` | packages/core/src/export/postman.ts:185-192 | a switched-off row stands after the switched-off rows before it and after as many sent pairs as there are switched-on rows before it, capped by the pairs there are |
| `PostmanTree.Writer.Items` | packages/core/src/export/postman.ts:266-269 | under a parent: the items and the set of written folders are those of the walk over its children in order |
| `PostmanTree.Writer.Walk` | packages/core/src/export/postman.ts:266-269 | the loop gives the items and the set of written folders of the walk, for any list of children and any folders written before |
| `PostmanTree.Writer.Group` | packages/core/src/export/postman.ts:270-287 | a folder is marked before its own children are walked, so the walk ends on rings |
| `PostmanTree.WalkedIs` | packages/core/src/export/postman.ts:266-269 | a walk keeps the children's order and all requests, writes each folder once and none that was written, nests each with its own children, and leaves nothing under what it wrote unwritten |
| `PostmanTree.FirstWalk` | packages/core/src/export/postman.ts:289-290 | the walk from the top writes exactly the folders whose parents lead to the top |
| `PostmanTree.WrittenBeforeTurn` | packages/core/src/export/postman.ts:291 | when its turn comes a folder is still unwritten exactly when its parents lead neither to the top nor to a folder before it |
| `PostmanTree.HeadsAre` | packages/core/src/export/postman.ts:291 | those folders, said of any list of folders |
| `PostmanTree.Writer.Collection` | packages/core/src/export/postman.ts:289-296 | every folder stands in the file exactly once; each request as often as its copies say; the first part holds exactly the folders whose parents lead to the top; at the top of the second part stand, in order, exactly the folders no parent leads from to the top or to an earlier one; then the orphan requests in order |
| `PostmanTree.SharedIdIsWrittenTwice` | packages/core/src/export/postman.ts:259-296 | two folders of one id: in every file written of them the request that names it stands twice |
| `PostmanTree.ChildrenAreOrdered` | packages/core/src/model/collection.ts:92-111 | of two children the earlier has the smaller order, or an equal one and is the folder, or is alike and ranks no later by id |
| `PostmanTree.OnceUnderDistinctIds` | packages/core/src/export/postman.ts:259-296 | when no two folders share an id each request is written exactly once; a shared id writes it once for each of those folders |
| `PostmanTree.WellFormedIsNested` | packages/core/src/export/postman.ts:266-296 | without rings and orphans every folder and request stands under its own parent, in order |
| `PostmanTree.DeepTimes` | packages/core/src/export/postman.ts:266-287 | in any written list a request stands where it is listed itself and once in each folder of the id it names |
| `InsomniaTree.Reader.constructor` | packages/core/src/import/insomnia.ts:409-414 | the children map holds each parent's resources in the file's order, sorted stably by their sort keys |
| `InsomniaTree.Reader.Level` | packages/core/src/import/insomnia.ts:419-432 | what is placed under a parent is placed for the first time, once, nested by parents and in sort order; too deep a nesting comes with a chain of distinct folders that is |
| `InsomniaTree.Reader.ReadWorkspaces` | packages/core/src/import/insomnia.ts:434-449 | each workspace's items, in the order of the workspaces, each item once and nested by parents |
| `InsomniaTree.Reader.ReadLoose` | packages/core/src/import/insomnia.ts:462-468 | the items of unheld parents, in the order the file first names those parents and under each by sort key |
| `InsomniaTree.Reader.ReadFormat4` | packages/core/src/import/insomnia.ts:434-473 | no request or folder is placed twice; exactly those whose parents lead to a workspace or to an unheld parent are placed; loose items stand in the order of their parents; the count of those left out is exact; an error means 64 distinct folders nested, and where no two workspaces or folders share an id it comes exactly then |
| `InsomniaTree.NotTooDeep` | packages/core/src/import/insomnia.ts:419-432 | where no two workspaces or folders share an id, what was read holds no chain of 64 folders under a root |
| `InsomniaTree.ChildrenAreSorted` | packages/core/src/import/insomnia.ts:409-414 | a parent's children stand by their sort keys |
| `StableSort.SortWorks` | packages/core/src/import/insomnia.ts:414 | sorting keeps the items, orders them, and leaves those that compare alike as they stood |
| `Database.Database.SweepFiles` | src/app/data/request-files.ts:16-24 | the loop deletes exactly the stored files no stored request names |
| `Database.Database.FilesOf` | src/app/data/removed.ts:22-30 | exactly the stored files the requests name, as they are stored |
| `Database.Database.Restore` | src/app/data/removed.ts:33-43 | collections go back first, then the folders and requests whose collection is there, then the files if a request went back |
| `Database.Database.DeleteRequest` | src/app/data/collection-requests-repository.ts:146-157 | the stores without the request and the files only it named; what went is captured whole |
| `Database.Database.DeleteFolder` | src/app/data/folders-repository.ts:162-182 | the folder, every folder inside it at any depth and their requests go, with the files no other request names; what went is captured whole |
| `Database.Database.DeleteCollection` | src/app/data/collections-repository.ts:219-238 | the collection with everything in it goes; what went is captured whole |
| `FolderTree.Subtree` | src/app/data/folders-repository.ts:185-198 | exactly the folders reachable by child links, each once, without the start, each after its parent; it ends on rings |
| `Database.Database.ImportCollectionExport` | src/app/data/collections-repository.ts:285-362 | the stores after an import and both things it hands over, in order; without an identifier nothing changes |
| `Database.Database.CreateCollection` | src/app/data/collections-repository.ts:42-63 | a new collection after the last, nothing else changed |
| `Database.Database.CreateFolder` | src/app/data/folders-repository.ts:33-62 | a new folder where it was asked for, after the last of folders and requests together |
| `Database.Database.CreateRequest` | src/app/data/collection-requests-repository.ts:31-55 | a new request with its files, after the last of folders and requests together |
| `Database.Database.UpdateRequest` | src/app/data/collection-requests-repository.ts:80-102 | the patched request and its files are stored, and a new body is followed by a sweep |
| `Database.Database.DuplicateRequest` | src/app/data/collection-requests-repository.ts:123-143 | a copy under a new id after the last, sharing the body's files |
| `Database.Database.DuplicateCollection` | src/app/data/collections-repository.ts:148-216 | a copy of the collection in the sense of the laws below, under new ids |
| `Database.Database.DuplicateFolder` | src/app/data/folders-repository.ts:102-156 | a copy of the folder and all inside it in the sense of the laws below, under new ids |
| `Database.Database.NextOrder` | src/app/data/idb-core.ts:356-366 | one more than the largest order of both stores, or one when none is above zero |
| `StoreUndo.RestoreIsInverse` | src/app/data/removed.ts:22-43 | putting back what was taken out gives the stores as they were exactly when no stored file was an orphan and all that went has a collection to come back to |
| `StoreUndo.PutBackLacking` | src/app/data/removed.ts:33-43 | what one restore makes of stores that lack any documents and files |
| `StoreUndo.RestoreHasNoOrphan` | src/app/data/removed.ts:22-43 | putting back what was taken out of any stores leaves no orphan file exactly when no request comes back, or each file of those that went is named by one that comes back or stayed |
| `ImportUndo.UndoHasNoOrphan` | src/app/services/import-pipeline.ts:211-215 | the Undo of an import, in any stores, leaves no orphan file exactly when the same holds of the requests it took |
| `ImportUndo.ImportedThenDeleted` | src/app/data/collections-repository.ts:285-362 | deleting what was imported leaves the old stores but for what was replaced and taken |
| `ImportUndo.UndoOfImport` | src/app/services/import-pipeline.ts:211-215 | for every store and file, as new or not: the Undo gives the stores back exactly when no file was an orphan, the import replaced a collection or its id was unused, and what it took has homes |
| `ImportUndo.UndoUnderIntegrity` | src/app/services/import-pipeline.ts:211-215 | under integrity the Undo of an import over a stored or a new collection is exact if and only if every file was named by a request |
| `StoreEffects.ImportHolds` | src/app/data/collections-repository.ts:306-360 | after an import the collection is the file's and untrusted, holds exactly the file's folders and requests, other collections' documents are as they were unless the file has their ids, and no unnamed file is left |
| `StoreContents.ImportIs` | src/app/data/collections-repository.ts:306-360 | the stores after an import, every field of every document spelled out: the last folder of each id with its parent, name, order and content; the last request with its body, in its own folder unless that did not come along; the untrusted collection; all other documents; the named files. They are these and no others |
| `StoreContents.TakeOutIs` | src/app/data/folders-repository.ts:162-182 | the stores after a delete: every other document as it was, and of the files those a request still names |
| `StoreContents.CreateIs` | src/app/data/collection-requests-repository.ts:31-55 | the stores after a new request: the request, the given files, the last of one id, and everything else as it was |
| `StoreContents.SaveIs` | src/app/data/collection-requests-repository.ts:78-102 | the stores after a save: each field the patch names is the patch's, each other one as it was, the given files in, and after a new body only named files left; nothing changes without such a request |
| `StoreEffects.LastFolderStays` | src/app/data/collections-repository.ts:342-346 | of folders of one id in the file the last one stays, moved into the collection |
| `StoreEffects.LastRequestStays` | src/app/data/collections-repository.ts:347-357 | of requests of one id in the file the last one stays, moved into the collection |
| `StoreEffects.RequestsStandInFolders` | src/app/data/collections-repository.ts:347-357 | after an import every request of the collection stands at its top or in a folder that came with it: one of the collection's, when the file's folders have their keys as their ids |
| `StoreEffects.RequestStaysInFolder` | src/app/data/collections-repository.ts:347-357 | a request whose folder is in the file is still in it, and the folder is in the collection |
| `StoreEffects.DeletedFolderIsWhole` | src/app/data/folders-repository.ts:162-182 | a deleted folder leaves nothing that names it or a folder that went, and takes only what is inside it |
| `ImportPipeline.Confirm` | src/app/services/import-pipeline.ts:188-202 | the imports one after the other, what each handed over, and the ids added |
| `ImportPipeline.TakeUndo` | src/app/services/import-pipeline.ts:211-215 | the deletes and then the restores, in the order the closure runs them |
| `ManyImports.AllStand` | src/app/data/collections-repository.ts:285-362 | what stands after any sequence of imports, as new or not: what they put, and untouched what was neither replaced nor put over |
| `ManyImports.NextHanded` | src/app/data/collections-repository.ts:306-341 | files that do not meet: what each hands over is what it replaced and took as it was before the first of them |
| `ManyImports.UndoOfMany` | src/app/services/import-pipeline.ts:188-215 | for any number of files that do not meet, any stores, as new or not: the Undo is exact if and only if no file was an orphan, each import replaced a collection or its id was unused, and what each took has homes |
| `ManyImports.UndoOfReceived` | src/app/services/import-pipeline.ts:188-215 | the same for all that can be confirmed, one file under any ids or several whose ids are all new; for several it comes to every file being named by a request |
| `ImportFiles.RemapIdentifiers` | packages/core/src/import/wayfarer-collection.ts:186-229 | the copy of a file under new ids, as the loops make it: folders' links among all new ids, a request's among those given so far |
| `ImportFiles.CopyKeepsContent` | packages/core/src/import/wayfarer-collection.ts:186-229 | but for ids, links and times every document of a copy is the file's |
| `ImportFiles.FoldersKeepTheirTree` | packages/core/src/import/wayfarer-collection.ts:198-211 | two folders of the copy have one id exactly when they had, and one is in another exactly when it was |
| `ImportFiles.RequestsKeepTheirFolder` | packages/core/src/import/wayfarer-collection.ts:213-226 | a request of the copy is in a folder exactly when it was, and neither it nor a request before it had the folder's id |
| `ImportFiles.RequestLosesItsFolder` | packages/core/src/import/wayfarer-collection.ts:213-226 | a request that has its folder's id: its copy is in no folder of the copy |
| `ImportFiles.RequestsAreDistinct` | packages/core/src/import/wayfarer-collection.ts:213-217 | no two requests of a copy share an id, whatever ids they had |
| `ImportFiles.CopiesAreNew` | packages/core/src/import/import.ts:197-202 | files that are each given ids handed out once share none with each other or with the stores |
| `StoreCopies.CopyIsIsomorphic` | src/app/data/collections-repository.ts:148-216 | in any stores, for a collection id no document names: a bijection onto fresh ids that keeps parent links both ways, placement, order and content, and leaves what was there unchanged |
| `StoreCopies.FolderCopyIsIsomorphic` | src/app/data/folders-repository.ts:102-156 | the same for a folder; all links inside are copied exactly when the folder is in no ring with its own parent |
| `StoreCopies.RingKeepsItsParent` | src/app/data/folders-repository.ts:102-156 | two folders in each other: the copy of one is in the original of the other |
| `StoreRuns.StepIsUndone` | src/app/data/removed.ts:22-43 | after any delete or import, in any stores, its Undo gives back the stores exactly when every file was named by a request and what went has its collection to come back to |
| `StoreRuns.ImportKeeps` | src/app/data/collections-repository.ts:285-362 | an import keeps integrity and leaves no orphan file |
| `StoreRuns.SaveKeeps` | src/app/data/collection-requests-repository.ts:80-102 | a save that stores only files its body names leaves no orphan file where none was |
| `StoreRuns.CreateKeepsIntegrity` | src/app/data/folders-repository.ts:33-62 | a create keeps integrity exactly when the collection it is made in is stored, which it does not look for |
| `StoreRuns.ChangeKeeps` | src/app/data/request-files.ts:16-24 | every create, save, edit, copy, delete and import keeps keys and orphan-freedom, and integrity exactly when it creates nothing in a collection that is gone |
| `StoreRuns.StepKeeps` | src/app/data/request-files.ts:16-24 | from sound stores, what a step leaves and what its own Undo would give back are sound exactly when it creates nothing in a collection that is gone |
| `StoreRuns.RunKeeps` | src/app/data/request-files.ts:16-24 | a corollary: while each create so far had its collection there, each file is named by a stored request and each document's collection is there |
| `StoreRuns.RunHasIntegrity` | src/app/services/collections-store.ts:214-264 | every state of a run has integrity exactly when every create had its collection there |
| `StoreRuns.RunIsKeyed` | src/app/data/removed.ts:33-43 | in every state of every run each document is stored under its id |
| `StoreRuns.UndoGivesBack` | src/app/services/import-pipeline.ts:211-215 | in every run an Undo right after a delete or an import gives back the stores as they were before it, exactly on that condition |
| `StoreRuns.UndoGivesBackSound` | src/app/services/import-pipeline.ts:211-215 | it always does while each create so far had its collection there |
| `StoreRuns.FolderOfNoCollection` | src/app/data/folders-repository.ts:33-62 | a run that makes a collection, deletes it and creates a folder in it: the folder is stored without its collection |
| `StoreRuns.StrayIsLost` | src/app/data/collections-repository.ts:306-320 | an import of that collection then takes the folder out, hands nothing over for it, and its Undo does not give it back |
| `StoreOrphans.UndoLeavesNoOrphan` | src/app/data/removed.ts:22-43 | for every delete and import, in any stores: the exact condition for its Undo to leave no orphan file |
| `StoreOrphans.CollectionTidies` | src/app/data/collections-repository.ts:219-238 | the Undo of a collection's delete always meets it |
| `StoreOrphans.OneRequestTidies` | src/app/data/collection-requests-repository.ts:146-157 | so does that of a request's delete |
| `StoreOrphans.WholeTidies` | src/app/services/import-pipeline.ts:211-215 | and any Undo that gives back the stores as they were |
| `StoreOrphans.StepLeavesNoOrphan` | src/app/data/request-files.ts:16-24 | from any stores without an orphan file: no change leaves one, and its Undo leaves none exactly on that condition |
| `StoreOrphans.RunHasNoOrphan` | src/app/data/request-files.ts:16-24 | every state of a run is without an orphan file exactly when every Undo that was taken met the condition |
| `StoreOrphans.UndoLeavesAFile` | src/app/data/removed.ts:33-43 | a run whose last step, the Undo of an import, leaves the file of a request that does not come back |
| `StoreSteps.Perform` | src/app/services/collections-store.ts:205-264 | a call of the database is refused and changes nothing, or is a step of the runs |
| `StoreSteps.PerformUndo` | src/app/services/import-pipeline.ts:211-215 | so is taking the Undo of a delete or of an import of one collection |
| `CookieRules.ParseSetCookie` | packages/core/src/cookies/jar.ts:64-118 | the loop over attributes gives the cookie, or the refusal, that `CookieHeaders.HeaderMakes` describes |
| `CookieHeaders.HeaderMakes` | packages/core/src/cookies/jar.ts:64-118 | for every header and cookie: it makes that cookie exactly when name and value stand around its first equals sign, the flags are those some attribute names, path, life, SameSite and domain those of the last attribute that counts, and a browser may keep it: no control character, size, every domain reachable, Secure over https, both prefixes |
| `CookieMatching.HostsThatMatch` | packages/core/src/cookies/jar.ts:41-44 | which hosts match a domain: itself, or any text and a dot before it on a host that is no IP address |
| `CookieMatching.HostsThatAreIp` | packages/core/src/cookies/jar.ts:33-34 | which hosts are IP addresses: four numbers of one to three digits with dots between, or what begins with a bracket |
| `CookieMatching.PathsThatMatch` | packages/core/src/cookies/jar.ts:52-57 | which paths match a cookie's: itself, or its beginning where a slash ends it or follows it |
| `CookieMatching.CarriesExactly` | packages/core/src/cookies/jar.ts:133-146 | a request carries exactly the held cookies that have not expired and whose host, path and Secure flag fit, sorted by length of path from the longest and then by age from the oldest |
| `Text.TrimIs` | packages/core/src/cookies/jar.ts:69-70 | what is trimmed is the text between white space and white space that has none at its own ends |
| `CookieLaws.StoreRefinesMap` | packages/core/src/cookies/jar.ts:124-130 | storing is a map update on (name, domain, path): an expired cookie takes its key out, another goes in with the first creation time, and only the earliest created is evicted beyond 1,000 |
| `CookieLaws.EveryJarIsValid` | packages/core/src/cookies/jar.ts:120-130 | every reachable jar has distinct keys and at most 1,000 cookies |
| `CookieLaws.SendsExactly` | packages/core/src/cookies/jar.ts:133-146 | exactly the matching unexpired cookies, longer path first, then earlier creation, ties as they stood |
| `CookieLaws.CookiesStayHome` | packages/core/src/cookies/jar.ts:64-146 | over any run of headers from an empty jar, a cookie that is sent was set by the last header of its key, and goes to the host that sent that header, or to one matching a dotted domain which that host also matched; a Secure one was set over https and goes over https |
| `CookieLaws.GoesBack` | packages/core/src/cookies/jar.ts:42-146 | a cookie without attributes goes back, with its value, to the address that set it, after any run of headers under a clock that does not go back |
| `CookieRuns.HeldIsFrom` | src/app/services/cookie-jar.ts:39-104 | over the whole life of a page, with its start, edits, removals and clears, every cookie it holds has the name, domain, path and flags of one a header set or of one it started with |
| `CookieRuns.PageCookiesStayHome` | src/app/services/cookie-jar.ts:39-104 | so a cookie that is sent goes where the response of such a header might have sent it, or where the one of the start may go |
| `CookieRuns.PageGoesBack` | src/app/services/cookie-jar.ts:39-104 | whatever the page did before, a cookie without attributes goes back, with its value, to the address that set it |
| `CookieLaws.DefaultPathMatches` | packages/core/src/cookies/jar.ts:46-57 | a path matches the default path made from it |
| `CookieLaws.PlainCookie` | packages/core/src/cookies/jar.ts:64-118 | a header without attributes makes a host-only cookie of the default path |
| `CookieLaws.NoCookieFromTheFuture` | packages/core/src/cookies/jar.ts:124-130 | under such a clock no held cookie is newer than the clock |
| `CookieJar.Jar.constructor` | src/app/services/cookie-jar.ts:32-43 | a page starts with what is stored and nothing to write |
| `CookieJar.Jar.PutCookie` | src/app/services/cookie-jar.ts:91-104 | list, memory-only set and the issued write after one put |
| `CookieJar.Jar.Store` | src/app/services/cookie-jar.ts:64-73 | each header of a response in turn: read at one time, put at another |
| `CookieJar.Jar.SetValue` | src/app/services/cookie-jar.ts:76-78 | an edit is a put of the trimmed value, memory-only as before |
| `CookieJar.Jar.Remove` | src/app/services/cookie-jar.ts:80-82 | a removal is a put of an expired cookie |
| `CookieJar.Jar.Clear` | src/app/services/cookie-jar.ts:84-88 | everything goes, and a write that clears the store is issued |
| `CookieJar.KeyIsInjective` | src/app/services/cookie-jar.ts:7 | where no path holds a bar the joined key is the name, the domain and the path |
| `CookieJar.PipeCollides` | src/app/services/cookie-jar.ts:7 | where a path holds one, another cookie has the same key |
| `CookieJar.StepKeeps` | src/app/services/cookie-jar.ts:64-104 | where page and store agree, a step keeps them in agreement exactly when it leaves no two cookies to be stored under one key, however late writes land |
| `CookieJar.StoreAgrees` | src/app/services/cookie-jar.ts:91-104 | over any run, page and store agree after every step exactly when no two cookies to be stored ever had one key |
| `CookieJar.CleanStoreAgrees` | src/app/services/cookie-jar.ts:91-104 | over any run without a bar in a path they always do; with no write left the store is exactly the held cookies that are not memory-only |
| `CookieJar.LandedAgrees` | src/app/services/cookie-jar.ts:106-113 | where page and store agree, the store has exactly what the page is to store once all writes have landed |
| `CookieJar.StoredIsStep` | src/app/services/cookie-jar.ts:64-73 | a response's header is one such step, or none |
| `CookieJar.PathCookie` | packages/core/src/cookies/jar.ts:64-118 | a header can set any path that begins with a slash, a bar in it included |
| `CookieJar.PipeLosesCookie` | src/app/services/cookie-jar.ts:7 | two headers of one response whose cookies share a key: the page holds both, and page and store do not agree |
| `Pairing.Exchange.Handle` | packages/bridge/src/server.js:77-116 | the closure's state and answer after one attempt |
| `Pairing.WrongCodesAreBounded` | packages/bridge/src/server.js:68-116 | under a monotone clock any interval of L milliseconds holds at most 3 * (L / 60,000 + 1) wrong answers, whatever is tried |
| `Pairing.TokenAtMostOnce` | packages/bridge/src/server.js:100-114 | the token is given at most once in any run, under any clock |
| `Pairing.NormalCodesMeet` | packages/bridge/src/server.js:66 | two codes are taken for each other exactly when their characters that are neither white space nor a dash are the same letters in the same order, in either case |
| `Pairing.AnswersAreDue` | packages/bridge/src/server.js:77-116 | every answer of every run, from the started code and the answers before: malformed, locked for a minute after each third wrong code, used up, wrong, or the token for the same code |
| `Pairing.OnlyTheRightCode` | packages/bridge/src/server.js:105-114 | whoever is given the token sent the code the bridge was started with, white space, dashes and case set aside |
| `Pairing.QuietAttempts` | packages/bridge/src/server.js:82-112 | malformed, locked-out and used-up attempts, and no others, leave the state as it is |
| `Pairing.LockHolds` | packages/bridge/src/server.js:93-99 | while the lock holds no code is looked at, the right one included |
| `VaultStore.SecretsRepository.WriteVault` | src/app/data/secrets-repository.ts:73-83 | the record is written exactly when its being there is what `replace` says |
| `VaultStore.SecretsRepository.ReplaceCipher` | src/app/data/secrets-repository.ts:36-46 | a secret that is there gets the new ciphertext under its id and name; another is not made |
| `VaultStore.SecretsRepository.WriteSecrets` | src/app/data/secrets-repository.ts:86-95 | each secret is put under its id, the later of two of one id last |
| `VaultStore.ReencryptFile` | src/app/services/secrets-vault.ts:260-271 | all of the file's secrets under the local key, or none when one does not decrypt |
| `VaultStore.ReencryptedKeeps` | src/app/services/secrets-vault.ts:260-271 | each comes back with its id, its name and its plaintext |
| `VaultProtocol.StepKeeps` | src/app/services/secrets-vault.ts:99-274 | every step of every operation, in every state, keeps the invariant and takes back no committed key |
| `VaultProtocol.RunKeeps` | src/app/services/secrets-vault.ts:99-274 | so does every interleaving of the tabs' read, compute and commit steps |
| `VaultProtocol.KeyIsForever` | src/app/data/secrets-repository.ts:67-83 | a committed vault's key stays the key of every later state, and of every tab that holds one |
| `VaultView.StepIsSeen` | src/app/services/secrets-vault.ts:99-274 | every step of the protocol does exactly what it does in a view of the vault that has no key, record or envelope: passphrase, open tabs, names and texts, what waits |
| `VaultView.RunIsSeen` | src/app/services/secrets-vault.ts:99-274 | so the stores, the tabs and the waiting operations of every run are what its events tell |
| `VaultLaws.OpensWithLastPassphrase` | src/app/services/secrets-vault.ts:99-210 | after any run a passphrase opens the stored record exactly when the last written commit put it, as the passphrase or the `next` of the event that began that operation |
| `VaultLaws.ReadsLastText` | src/app/services/secrets-vault.ts:146-274 | after any run a secret decrypts to a text exactly when the last commit that put one for it put that one and it was not deleted since: the plaintext of the event that began the save or replacement, or the one in the imported file |
| `VaultLaws.OneKeyForAll` | src/app/services/secrets-vault.ts:99-177 | every tab that holds a key holds the vault's, and what is stored opens under no other key and for no other id |
| `VaultLaws.HeldKeyReadsLaterSecrets` | src/app/services/secrets-vault.ts:146-177 | a key a tab holds reads every secret any tab stores later, as the text put last |
| `Csv.ParseCsv` | packages/core/src/run/data-file.ts:15-48 | the character loop gives the records of the specification, or the open-quote error |
| `Csv.ScanLines` | packages/core/src/run/data-file.ts:15-48 | the records of any RFC 4180 lines are read back, but for a last empty field alone on an unended line |
| `Csv.RoundTrip` | packages/core/src/run/data-file.ts:15-48 | for every RFC 4180 text: its records are read back exactly when it does not begin with a byte order mark that is data and does not end in such a field |
| `Csv.FirstMarkIsLost` | packages/core/src/run/data-file.ts:15-48 | a first field that begins with the mark, in a file without one, loses it |
| `Csv.LastEmptyIsLost` | packages/core/src/run/data-file.ts:15-48 | a last empty field alone on an unended line is not read |
| `Csv.ParseDataFile` | packages/core/src/run/data-file.ts:71-79 | the rows of a CSV data file, or its error |
| `Csv.RowHasNames` | packages/core/src/run/data-file.ts:75-79 | a row has exactly the non-empty names of the header, in order, each with the record's field of its place, or no text where the record is too short |
| `Csv.DataFileRoundTrip` | packages/core/src/run/data-file.ts:71-79 | every written data file, with a mark or without: a row for each record below the names that is not one empty field, in order, with the record's own fields under the names as they are read, or the error when no cell names a column |

## Left out

- Text is a sequence of Unicode scalar values: lone surrogates and indices in UTF-16 code units are not modelled, except
  where a code unit is made from a number (`Address.IndexChar`).
- Letter case is folded for ASCII letters alone (headers, methods, hosts, attribute names).
- Warnings and errors are values of a datatype, not sentences.
- Authentication, scripts, variables and descriptions of documents are carried as one text, since nothing here reads
  them; `auth`, `events` and `body` of the Postman writer and its notes, and the entries, environments and warnings of
  the Insomnia reader are left out for the same reason. So is Insomnia's format 5, which nests its items itself.
- The `.json` branch of `parseDataFile`, `withJarCookies`, and the importer that turns a parsed command into a tab.
- A `Max-Age` is an integer without bound: rounding past 2^53 is not modelled.
- `URL` parsing and `Date.parse`: an address is given as scheme, host and path, a date as a function from text to time;
  `NaN` orders and sort keys do not occur.
- The redactor: whether a cookie repeats a secret is given with the header.
- IndexedDB returns an index's documents in key order; here they come in any order, and no result depends on it. An
  aborted transaction is one that changed nothing.
- `id.localeCompare` is a given rank of each id.
- Ids a store makes are given to the methods as fresh ones; the time is given as a number.
- Cross-tab reads of the cookie jar, failed writes, and a restore or reset of the vault.
- WebCrypto is symbolic: wrapping and encryption open with the passphrase or key they were made with, and with no other.
- `setCollectionInherited`, `approveScripts`, renames and reorders are one kind of edit in `StoreRuns`: they change
  neither a document's collection nor a request's body.
- Environments of an import: their merge is not part of its Undo.
- Browser limits, history, code generation, HAR, auth inheritance and the user interface: case analysis with no law
  that spans functions.
- The checks and the sorting of a collection file before its ids are renewed; its documents' ids are their keys by then,
  and the ids that are handed out are given to `ImportFiles.RemapIdentifiers`.
- Transactions of another tab between two imports of one confirmation.
- CookieRuns.PageCookiesStayHome: what is edited or removed is a cookie the page listed, then or before, as the settings
  pane hands it over.
- StoreRuns.RunKeeps: a save stores only files its body names, and an import under new ids uses an id no document names;
  both are what the callers do.
- StoreRuns.UndoGivesBack: speaks of an Undo taken right after its step, as `StoreOrphans.RunHasNoOrphan` does; one that
  is taken after other steps is not modelled.
- StoreCopies.CopyIsIsomorphic: orders are equal, so children stand in the same order where no two orders are; between
  equal orders the rank of the new ids decides.
- ManyImports.UndoOfMany: several files that share an id, or of which one has the id of a document stored in another's
  collection, are left out: no importer hands such files over together.
