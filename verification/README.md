# Verified model of the device's C base libraries

The device software rests on three small C libraries: libubox (AVL trees, streams, binary attributes, timers, task
queues), libuci (configuration files) and ubus (the message broker and its clients). This project models their core in
Dafny and proves what each of them is for, over all inputs and all sequences of calls. `dafny verify dfyconfig.toml`
checks everything.

Code that works in place is modelled in place: classes with the fields of the C structures, pointers between nodes,
arrays for line buffers and rings, and loops with invariants. Each such method is proved against a definition on plain
values (a sorted insertion, a filtered list, a concatenation of bytes), and what the libraries promise is proved about
those definitions or stated as an invariant that every operation keeps.

| files | what they model |
|---|---|
| `AvlModel`, `AvlList`, `AvlOrder`, `Avl`, `AvlIndex` | the intrusive AVL tree with duplicates: shapes, contexts and balances as values, the threaded list, the order of keys, the heap operations, and the tree as its users see it |
| `UciStore`, `UciReplay`, `UciLaws`, `UciCalls`, `UciExact`, `UciPackage`, `UciReference` | packages, sections and options; the seven mutators and their records; replay; what a reader sees; what each call does, case by case; when replay redoes a call; the package object; references by type and index |
| `UciWord`, `UciText`, `UciLines`, `UciSyntax`, `UciFiles`, `UciBreaks`, `UciRoundTrip`, `UciImport`, `UciReader` | the in-place argument parser; the text form; its lines; all ways to write a line; what lines do to the package and which files can be read; values that go over several lines; import undoes export; the printing and parsing loops; the line buffer and the import loop |
| `UstreamBuf`, `Ustream`, `UstreamWrite` | chains of stream buffers, and writing through them to a sink |
| `Blob`, `BlobBuf`, `BlobTree`, `Blobmsg` | the attribute format, the growing buffer with open frames, trees of attributes, and named messages |
| `UbusOrder`, `UbusEvent`, `UbusLookup` | key order, events and path lookup, on top of the verified tree |
| `UbusBroker`, `UbusDirectory`, `UbusRegistry`, `UbusBook` | objects, types and subscriptions; the tree of paths; both together; what clients see of them over whole runs |
| `UbusTx`, `UbusDaemon`, `UbusTraffic`, `UbusReq` | transmit rings; messages shared by all clients; all traffic over whole runs; requests and notifications of a client |
| `Uloop`, `Runqueue` | the timer list and the task queue |
| `Common`, `Bytes` | small shared definitions |

Main results:

- The AVL tree: `Avl.AvlTree.Valid` says that the leaders form a search tree with exact balances in -1..1 and correct
  parent links, that the threaded list is the in-order walk with each leader followed by its duplicates, and that
  `count` is its length. `Insert` and `Delete` keep it and change the list by exactly one sorted insertion or one
  removal, hence so does any run of them (`AvlIndex.Run`); the three searches agree with linear scans; the height is
  bounded through Fibonacci numbers.
- libuci: on every package, replaying the records of a call redoes the call if and only if a condition holds that can be
  looked up before the call (`UciExact.StepReplays`), and the records of a run replay after each of its calls if and
  only if each call meets it (`RunReplays`); so runs of calls that keep names apart replay (`ProperRunReplays`).
  Importing an export gives the package back if and only if no value has a line end and no line is too long
  (`UciRoundTrip.RoundTrip`), with the parser proved in place (`UciImport.ParseLine`) and the whole import loop proved
  against the text form (`UciReader.ImportText`). The text form is tied to characters: a word means its characters
  however it is quoted (`UciSyntax.WordReads`), comments can go anywhere (`UciFiles.CommentIgnored`), and strict mode
  accepts exactly the files whose lines are short and readable and that open a section before the first option
  (`StrictExact`). What each call does is said case by case with slices of the lists before it (`UciCalls`).
- ustream: for every interleaving of writes and flushes and every partial acceptance, sink bytes followed by buffered
  bytes are the accepted bytes in order, and the stream is broken exactly from the first failed write on
  (`UstreamWrite.Stream.Run`).
- blob and blobmsg: reading undoes writing at every depth, although nesting patches lengths in a buffer that grows.
- ubusd: the early break in the event scan loses nothing, and over any run of operations each event goes exactly to
  those who listen (`UbusEvent.Events.Run`); objects, paths and subscriptions implement a simple book of them
  (`UbusBook.Run`), with wildcard lookups on a range of the path tree; each client gets exactly the messages sent to it,
  in order, and a message is freed exactly when the sender and the queues of all clients have let go of it
  (`UbusTraffic.Traffic.Run`, `UbusDaemon.Released`).
- libubus: requests complete at most once, and a notification exactly when ubusd and each of the first sixteen
  subscribers have answered, with status 0, unless its time runs out before.
- uloop and runqueue: the timer list is in pairwise order although its comparison is not transitive, and no timer is
  left overdue whatever callbacks do (`Uloop.Process`, with its exact exception); the task queue never starts a task at
  its limit, never loses a wakeup, and is empty after it is killed (`Runqueue.Queue.Kill`). Timers that fire, tasks that
  start and what is left are those of doing the calls of all callbacks on plain lists.

Some promises do not hold of the code as it stands, and are stated with a counterexample and the exact condition. Replay
goes wrong when sibling sections share a name (`UciLaws.ClashBreaksReplay`); `UciExact.StepReplays` says exactly when it
does not. Options that are empty strings or empty lists do not survive export and import (`UciRoundTrip.EmptyListLost`);
all others do (`OptionsSurvive`). Neither do values with line ends (`BrokenLineLost`), and lines of more than 4094
characters make an import fail (`LongLineLost`); `RoundTrip` is exact about both. A comment of more than 2046 characters
makes a file bad whose last line has no line end (`UciFiles.CommentHurts`); `CommentIgnored` is exact. For a line that
ends with a backslash, uci_getln clears a byte that may be outside its buffer (`UciLines.ContinuedOutside`);
`ContinuedInside` says when. A timer that is set with a negative delay while timers are processed can be overdue behind
one that is not due (`Uloop.NegativeDelay`); `Uloop.OverdueExactly` says exactly which can. Raw data added as an array
or table is read as messages (`Blobmsg.RoundTrip`). Data that comes while the data callback of a request runs reaches it
last first (`UbusReq.Request.ProcessData`). Where comments and code differ, the model follows the code: the comment in
ubusd_event.c speaks of an increasing number of matching characters, and the code goes on while it does not decrease.

## Model

| member | source | states |
|---|---|---|
| Avl.AvlTree.constructor | device/libubox/avl.c:94-103 | an empty tree satisfies the invariant: search order, exact balances in -1..1, parent links, labels, threaded list and count |
| Avl.AvlTree.Insert | device/libubox/avl.c:217-297 | the invariant is kept, and the tree consists of its old nodes and entries and those of the new node; the threaded list becomes the sorted insertion behind all nodes of equal key, unless an equal key is refused (-1) and nothing changes |
| Avl.AvlTree.Delete | device/libubox/avl.c:304-349 | the invariant is kept and the list loses exactly the node, whether it is a duplicate, a leader with duplicates or a lone leader |
| AvlIndex.Run | device/libubox/avl.c:217-349 | any run of insertions and deletions of any nodes does to the tree what the sorted insertions and removals do to a list |
| Avl.AvlTree.DeleteLeader | device/libubox/avl.c:311-342 | deleting a leader that has duplicates promotes exactly the next one, into the same position of the tree with the same balance and children |
| Avl.AvlTree.DeleteLater | device/libubox/avl.c:348-349 | deleting a duplicate leaves the tree of leaders alone |
| Avl.AvlTree.Find | device/libubox/avl.c:112-124 | the first node with that key in list order (its leader), or null, as a linear scan would find |
| Avl.AvlTree.FindLessEqual | device/libubox/avl.c:134-166 | the last node in list order whose key is at most the given one, or null |
| Avl.AvlTree.FindGreaterEqual | device/libubox/avl.c:176-208 | the first node in list order whose key is at least the given one, or null |
| Avl.AvlTree.FindRec | device/libubox/avl.c:351-374 | the descent stops at an equal key or where no child is on the side the search would go; the path is the path of the search |
| Avl.AvlTree.RotateRight | device/libubox/avl.c:376-406 | rewires pointers and balances to the rotated tree at any place of the tree, whatever the balances are |
| Avl.AvlTree.RotateLeft | device/libubox/avl.c:408-438 | the mirror image of the right rotation |
| AvlModel.RotatedRightKeeps | device/libubox/avl.c:376-406 | rotation keeps the in-order walk and the nodes, and the min/max balance updates keep stored balances exact for all balances |
| AvlModel.RotatedLeftKeeps | device/libubox/avl.c:408-438 | the same for the left rotation |
| Avl.AvlTree.PostInsert | device/libubox/avl.c:440-486 | after a subtree has grown by one, the whole tree is balanced again with the same walk |
| Avl.AvlTree.PostDelete | device/libubox/avl.c:509-569 | after a subtree has shrunk by one, the whole tree is balanced again with the same walk |
| Avl.AvlTree.DeleteWorker | device/libubox/avl.c:591-727 | the walk loses exactly the run of the deleted leader, and the tree is balanced |
| Avl.AvlTree.LocalMin | device/libubox/avl.c:571-578 | the leftmost node below a node, with its place in the same tree |
| Avl.AvlTree.Thread | device/libubox/avl.c:488-500 | the threaded list gets the node at the given position and stays doubly linked and counted |
| Avl.AvlTree.Unthread | device/libubox/avl.c:502-507 | the threaded list loses the node at the given position and stays doubly linked and counted |
| AvlList.ListAdd | device/libubox/list.h:94-103 | linking an entry between neighbours keeps the ring linked in both directions |
| AvlList.ListDel | device/libubox/list.h:80-92 | unlinking an entry keeps the ring linked in both directions |
| Avl.AvlTree.Links | device/libubox/avl.c:217-349 | in every valid tree parent links invert child links and each stored balance is the height difference, at most one |
| Avl.AvlTree.Shallow | device/libubox/avl.c:217-349 | in every valid tree of height h there are at least Fib(h+2)-1 leaders, and count is the length of the list |
| AvlModel.FewestLeaders | device/libubox/avl.c:440-486 | a balanced tree of height h has at least Fib(h+2)-1 nodes |
| AvlOrder.FlatSorted | device/libubox/avl.c:238-296 | leaders in strict order, each followed by its equal duplicates, make a sorted list |
| UciPackage.Package.LookupExtended | device/uci/list.c:323-347 | the section that a type and an index stand for, of which UciCalls.TypeMeans and IndexMeans say which it is |
| UciReference.Lookup | device/uci/list.c:285-359 | the text of an extended reference is taken apart: an error if and only if it is malformed, and otherwise the section that its type and index mean (UciCalls.TypeMeans) |
| UciCalls.NameMeans | device/uci/list.c:273-283 | a name stands for the first section that has it |
| UciCalls.TypeMeans | device/uci/list.c:323-347 | a section found by a type has that type, and as many sections of the type before it as the index says, or behind it if the index is negative; none is found if and only if there are too few of the type |
| UciCalls.IndexMeans | device/uci/list.c:323-347 | an index without a type is the position, counted from the end if it is negative |
| UciReference.SpellingMeans | device/uci/list.c:293-321 | every type without an opening bracket and every index is understood when spelled as a reference |
| UciReference.MeantPlain | device/uci/list.c:293-321 | no other types can be meant |
| UciReference.PartsMean | device/uci/list.c:293-321 | an at sign, a valid type or nothing, and a number in brackets are understood as that type and number |
| UciReference.MeaningParts | device/uci/list.c:293-321 | every text that is understood is of this form |
| UciReference.NumberRead | device/uci/list.c:314-317 | white space, a sign and digits make the number they spell |
| UciReference.NumberBad | device/uci/list.c:314-317 | any other character makes none |
| UciPackage.Package.Expand | device/uci/list.c:373-470 | the pointer with the section and option its names or index stand for |
| UciPackage.Package.Set | device/uci/list.c:666-725 | the new sections, status and logged records are those of the value function Setting, of which UciCalls.SetsOption, SetsType, SetsNew, SetsEmpty and SetsNothing say what it does in every case |
| UciPackage.Package.Delete | device/uci/list.c:548-591 | the sections, status and records of the value function Deleting, of which UciCalls.DeletesItem, DeletesOption, DeletesSection and FindsNothing say what it does in every case |
| UciPackage.Package.AddList | device/uci/list.c:593-632 | the same for ListAdding, with the conversion of a string to a list (UciCalls.AddsItem, AddsToText) |
| UciPackage.Package.DelList | device/uci/list.c:634-664 | the same for ListDeleting: every copy of the value goes (UciCalls.DeletesCopies, FilteredSum) |
| UciPackage.Package.Rename | device/uci/list.c:485-513 | the same for Renaming; a renamed section is no longer anonymous (UciCalls.RenamesSection, RenamesOption) |
| UciPackage.Package.Reorder | device/uci/list.c:15-28 | the same for Reordering, through the loop of uci_list_set_pos (UciCalls.MovesSection) |
| UciPackage.Package.AddSection | device/uci/list.c:532-546 | a reader finds the new section as the last one of its type and every value that could be read before; the record logged is that of Adding |
| UciLaws.AddSectionThenGet | device/uci/list.c:532-546 | a new section is last, anonymous and empty, the last one of its type, and no value under any section and option name changes, whatever names there are |
| UciPackage.Package.ReplayLine | device/uci/delta.c:156-199 | one record does what ReplayedOne says; a record that fails changes nothing |
| UciPackage.Package.Replay | device/uci/delta.c:202-234 | replaying a list of records in order |
| UciExact.StepReplays | device/uci/list.c:472-725 | for every call on every package, also with repeated names: replaying its records gives the sections the call gave if and only if the call has nothing to do, or its names and text can be said in a record and lead to the element it was about (or to an earlier section with which it makes no difference), or it cannot be said but changes nothing |
| UciExact.IdleExactly | device/uci/list.c:472-725 | exactly the calls that are refused or have nothing to do log nothing, and they change nothing |
| UciExact.SayableExactly | device/uci/delta.c:96-154 | the record of a call is accepted if and only if its names and text are valid |
| UciExact.KeepsExactly | device/uci/list.c:472-725 | which calls change nothing although they log a record, for all seven mutators |
| UciExact.AgreesExactly | device/uci/delta.c:156-199 | a record that is accepted redoes its call if and only if it leads to the same element or, for deletions and moves, all sections between the two are equal, and for the other calls neither section would change |
| UciExact.RunReplays | device/uci/delta.c:202-234 | for every run of calls on every package: the records replay to the package as it is after each call of the run if and only if each call is replayable |
| UciExact.ProperRunReplays | device/uci/delta.c:156-199 | for every run of calls of the seven mutators with valid names and texts that keep sibling names apart, replaying all records on the starting package gives the final sections |
| UciExact.ErrorsCancel | device/uci/delta.c:156-199 | a concrete run whose records replay to the final package although they do not after its second call, which is why the exact statement is about each call of the run |
| UciReplay.ProperKeeps | device/uci/list.c:472-725 | such calls keep names valid and distinct |
| UciExact.ProperReplayable | device/uci/delta.c:96-154 | such calls are replayable |
| UciReplay.DecimalReads | device/uci/delta.c:171-175 | the position in a reorder record reads back for every integer |
| UciReplay.SameTarget | device/uci/list.c:373-470 | if the name of a section leads to that section, looking a pointer up again by the names in its record finds the same elements |
| UciLaws.SetThenGet | device/uci/list.c:666-725 | an option that is set has that value and all other options keep theirs |
| UciLaws.AddThenGet | device/uci/list.c:593-632 | adding to a list appends to what was there, a string counting as a list of one; all else keeps its value |
| UciLaws.DelThenGet | device/uci/list.c:634-664 | removing from a list removes every copy; all else keeps its value |
| UciLaws.FilteredSome | device/uci/list.c:657-661 | what remains is the rest as a multiset |
| UciLaws.DeleteThenGet | device/uci/list.c:548-591 | deleting an option equals setting it to the empty string, and only that option is gone |
| UciLaws.RenameThenGet | device/uci/list.c:485-513 | a renamed section shows its options under the new name only |
| UciLaws.MoveThenPlace | device/uci/list.c:15-28 | a moved section is at the position asked for, the first one if that is negative and the last one if it is too large, and the others keep their order |
| UciCalls.DeletesItem | device/uci/list.c:563-578 | deleting with the index of a list item as text removes exactly that item, in slices of the list; an index outside changes and logs nothing |
| UciCalls.DeleteItemThenGet | device/uci/list.c:563-578 | a reader then finds the list without that item and every other value as it was |
| UciCalls.DeletesNoItem | device/uci/list.c:563-578 | a text that is no number is refused and changes nothing |
| UciCalls.DeletesOption | device/uci/list.c:548-591 | an option goes from its place: a list without an index, a string whatever the value is |
| UciCalls.DeletesSection | device/uci/list.c:548-591 | exactly the section goes |
| UciCalls.FindsNothing | device/uci/list.c:485-591 | what is not there is not found, by deletion or renaming |
| UciCalls.SetsOption | device/uci/list.c:698-704 | another value goes to the end of the options in place of the old one, with its record |
| UciCalls.SetsNewOption | device/uci/list.c:692-694 | a new option goes to the end |
| UciCalls.SetsType | device/uci/list.c:705-717 | a section changes its type, keeps its place and options, and no value changes for a reader |
| UciCalls.SetsNew | device/uci/list.c:695-697 | a section that is not there is made, last and empty |
| UciCalls.SetsEmpty | device/uci/list.c:685-691 | setting what is there to the empty string is deleting it |
| UciCalls.SetsNothing | device/uci/list.c:672-676 | what cannot be set: no value, an option of no section, a type with invalid characters |
| UciCalls.AddsItem | device/uci/list.c:593-632 | an item goes to the end of a list |
| UciCalls.AddsToText | device/uci/list.c:593-632 | a string becomes a list of two at the end of the options |
| UciCalls.FilteredSum | device/uci/list.c:657-661 | removing an item works item by item and keeps the order |
| UciCalls.DeletesCopies | device/uci/list.c:634-664 | exactly the list changes, by losing the item, and a string stays |
| UciCalls.RenamesSection | device/uci/list.c:485-513 | a section stays at its place under the new name with its options, and is not anonymous |
| UciCalls.RenamesOption | device/uci/list.c:485-513 | an option stays at its place under the new name with its value |
| UciCalls.RenameOptionThenGet | device/uci/list.c:485-513 | a reader finds the value under the new name, nothing under the old one, and all else as it was |
| UciCalls.MovesSection | device/uci/list.c:515-530 | a section comes to the position asked for, or the first or last one, and the others keep their order; the record says the position |
| UciLaws.ClashBreaksReplay | device/uci/delta.c:156-199 | a concrete pair of calls after which replay goes wrong because two sections share a name |
| UciWord.ParseSingle | device/uci/file.c:154-171 | in place over the line buffer: the word of the reference definition, the write position strictly behind the read position |
| UciWord.ParseDouble | device/uci/file.c:126-149 | the same for double quotes with backslashes |
| UciWord.ParseWord | device/uci/file.c:176-216 | parse_str in place equals the reference Word; the written word and its NUL never overtake unread input, and nothing before it changes |
| UciWord.SkipWhitespace | device/uci/file.c:104-114 | skips white space, and a backslash unless it ends the line |
| UciWord.NextArg | device/uci/file.c:221-245 | the argument with its checks, standing in the buffer where reading began, and the unread rest behind it |
| UciWord.ParseArguments | device/uci/file.c:395-402 | two arguments and the end of the line, both still readable in the buffer at the end |
| UciWord.AssertEol | device/uci/file.c:312-320 | what may follow the arguments, in strict mode and otherwise |
| UciWord.WordClean | device/uci/file.c:176-216 | words and rests of a line hold no character that the line does not hold, so no NUL and no line end |
| UciImport.ParseStatement | device/uci/file.c:459-506 | one round of the command loop in place equals the reference FirstStatement, of which UciSyntax says on characters what it reads: words however quoted, comments, semicolons, long and short commands |
| UciImport.ParseLine | device/uci/file.c:459-506 | the whole line in place: the statements and whether it was read without error, as ReadLine says; UciSyntax.OptionReads, ConfigReads, PackageReads, CommentReads and UnknownFails say on characters what this is |
| UciImport.EscapeString | device/uci/file.c:514-556 | the chunk-wise loop equals the character-wise definition of escaping |
| UciImport.ExportPackage | device/uci/file.c:561-594 | the nested printing loops equal the joined lines of the package, with or without a header and the names of anonymous sections |
| UciReader.Reader.GetLine | device/uci/file.c:40-76 | the loop that fills and doubles the line buffer gives the next line without its end, or that it is too long, as the reference Fetch says; also for a last line without an end |
| UciLines.ContinuedInside | device/uci/file.c:52-54 | after a line that ends with a backslash, the byte that uci_getln clears is inside the line buffer if and only if it was before the line was read; growing for the line is never enough |
| UciLines.ContinuedOutside | device/uci/file.c:84-97 | a line of fifteen characters in a new buffer for which it is outside |
| UciReader.Execute | device/uci/file.c:379-454 | a statement of the text does to the package object what the reference Executed says |
| UciReader.ImportText | device/uci/file.c:614-670 | the whole import (fetch, parse in place, execute on the package object) gives the package and the outcome that the definition of the text form says; UciFiles.StrictExact, LenientExact and CommentIgnored say what this means for a file |
| UciSyntax.WordReads | device/uci/file.c:176-216 | a word means the characters of its parts, however these are quoted: in single quotes, in double quotes with backslashes, or bare with backslashes; and where reading goes on, with the exact case in which a semicolon is lost |
| UciSyntax.OpenQuotes | device/uci/file.c:126-171 | a single or double quote that is not closed is an error, whatever is in front of it |
| UciSyntax.OptionReads | device/uci/file.c:424-454 | an option or list line, indented and spaced in any way, long or short command, with any quoting, a comment or another command behind it |
| UciSyntax.ConfigReads | device/uci/file.c:379-419 | the same for a section with its type and name |
| UciSyntax.AloneLineReads | device/uci/file.c:379-454 | the same for a section without a name and an option without a value |
| UciSyntax.PackageReads | device/uci/file.c:360-374 | the same for the name of a package |
| UciSyntax.ShortReads | device/uci/file.c:475-500 | the commands p, c, o and l read as the long ones do, for all arguments |
| UciSyntax.CommentReads | device/uci/file.c:467-474 | a line of blanks, or of blanks, a hash sign and anything, says nothing and is no error |
| UciSyntax.UnknownFails | device/uci/file.c:475-505 | any other command is an error |
| UciFiles.CommentIgnored | device/uci/file.c:614-670 | putting such a line anywhere between the lines of a file does not change what is imported, exactly unless the line is too long; in front of a last line without its end that is half the size of the buffer |
| UciFiles.CommentHurts | device/uci/file.c:40-76 | a file that is read without such a comment and not with it |
| UciFiles.ReturnIgnored | device/uci/file.c:60-68 | a carriage return at the end of any line changes nothing |
| UciFiles.StrictExact | device/uci/file.c:614-670 | in strict mode a file is imported if and only if no line is too long, every line can be read, and a section comes before the first option |
| UciFiles.LenientExact | device/uci/file.c:614-670 | otherwise if and only if no line is too long |
| UciFiles.ConfigReopens | device/uci/file.c:406-418 | a section that is there already gets the new type, keeps its options and gets those that follow |
| UciFiles.OptionCalls | device/uci/file.c:436-453 | an option line does what the call that sets it does, except that an empty value is ignored; a list line does what adding an item does |
| UciFiles.OptionEarly | device/uci/file.c:432-433 | before the first section both are errors |
| UciLines.LinesSpelled | device/uci/file.c:561-594 | the characters of the printed lines |
| UciImport.ScanToken | device/uci/file.c:467-469 | the token up to the next blank and the position behind it |
| UciLines.WordQuoted | device/uci/file.c:176-216 | parse_str undoes quoting plus uci_escape for every value, whatever follows |
| UciLines.WordPlain | device/uci/file.c:176-216 | a plain word is read as itself |
| UciLines.OptionLineReads | device/uci/file.c:424-454 | a printed option line reads back as that option, for every value |
| UciLines.ListLineReads | device/uci/file.c:424-454 | a printed list line reads back as that list item |
| UciLines.ConfigLineReads | device/uci/file.c:379-419 | a printed section header reads back as type and name |
| UciRoundTrip.PackageImported | device/uci/file.c:614-670 | importing the printed lines appends exactly the sections |
| UciRoundTrip.JoinedImported | device/uci/file.c:638-652 | reading a text is reading its lines one by one, if none is longer than 4094 characters; if one is, the import fails |
| UciRoundTrip.RoundTrip | device/uci/file.c:561-594 | for every package with plain types and valid distinct names: importing its export gives it back, up to generated names and without empty strings and lists, if and only if no value has a line end and no printed line is longer than 4094 characters; a longer line makes the import fail, and in strict mode so does a line end |
| UciRoundTrip.LongLineLost | device/uci/file.c:70-71 | a value of 4095 characters makes the import of its own export fail |
| UciRoundTrip.BrokenLineLost | device/uci/file.c:154-171 | a value with a line end is not there after export and import; in strict mode the import fails |
| UciBreaks.ValueBreaks | device/uci/file.c:154-171 | for every value with a line end, its printed line breaks off inside the quotes, and the first line of it is an error |
| UciBreaks.ImportedClean | device/uci/file.c:614-670 | whatever text is imported, in any mode, no value of the package has a line end |
| UciRoundTrip.OptionsSurvive | device/uci/file.c:574-591 | the options of a section survive export and import if and only if none of them is an empty string or an empty list |
| UciRoundTrip.EmptyListLost | device/uci/file.c:581-586 | a list that uci_del_list has emptied is an option that is gone after export and import |
| UciRoundTrip.LastItemDeleted | device/uci/list.c:657-661 | deleting the only item of a list leaves an empty list |
| UciRoundTrip.SolidExact | device/uci/file.c:575-590 | leaving out empty strings and lists changes nothing if and only if there are none |
| Ustream.BufList.AddBuf | device/libubox/ustream.c:38-50 | a buffer joins the chain at its end; head, data_tail, tail and the counter agree with the chain |
| Ustream.BufList.FreeHead | device/libubox/ustream.c:159-178 | the first buffer goes or is recycled at the end; the stored bytes lose exactly what it held |
| Ustream.BufList.PrepareBuf | device/libubox/ustream.c:235-268 | stored bytes unchanged across compaction, moving on and allocation; success leaves room in data_tail, failure means that every buffer is in use |
| Ustream.BufList.Reserve | device/libubox/ustream.c:270-283 | the room granted is that of data_tail and never zero unless the buffers have run out |
| Ustream.BufList.FillRead | device/libubox/ustream.c:285-310 | the bytes go to the end of the stored bytes, over several buffers if need be; data_bytes counts them |
| Ustream.BufList.Consume | device/libubox/ustream.c:199-225 | the stored bytes lose exactly the first len: with FillRead, a FIFO across recycling |
| Ustream.BufList.ReadBuf | device/libubox/ustream.c:312-329 | a prefix of the stored bytes, empty only if there are none |
| Ustream.BufList.Put | device/libubox/ustream.c:379-404 | a prefix of the data goes to the end of the stored bytes, all of it unless the buffers run out |
| UstreamWrite.Stream.WritePending | device/libubox/ustream.c:338-377 | sink bytes followed by buffered bytes do not change; it goes on until nothing is waiting or the sink takes less than it is offered; there is a write error afterwards if and only if there was one before, when nothing is offered, or the sink has failed |
| UstreamWrite.Stream.Write | device/libubox/ustream.c:406-429 | sink bytes followed by buffered bytes grow by exactly the accepted prefix, for every partial acceptance; the sink is offered data only when nothing is waiting; the error is exact as for flushes, and without one less than all is accepted only when the buffers have run out |
| UstreamWrite.Stream.Run | device/libubox/ustream.c:338-429 | for every interleaving of writes and flushes and whatever the sink takes, sink bytes followed by buffered bytes are the accepted bytes in order; between any two calls the stream is broken if and only if the sink has failed, and otherwise every write that takes less than all leaves the buffers exhausted and every flush ends with nothing waiting or the sink full |
| BlobBuf.Buffer.constructor | device/libubox/blob.c:83-94 | a new buffer holds one open frame |
| BlobBuf.Buffer.Grow | device/libubox/blob.c:21-30 | the size stays a multiple of 256, and grows by more than required, keeping the content |
| BlobBuf.Buffer.Add | device/libubox/blob.c:64-81 | header and padding of an attribute fit and are written, and nothing before it changes |
| BlobBuf.PadFits | device/libubox/blob.c:64-81 | header, payload and padding fit although room is made for the unpadded length only |
| BlobBuf.Buffer.SetRawLen | device/libubox/blob.c:115-122 | the length of the attribute becomes len (below 2^24), its id and every other byte of the buffer stay |
| BlobTree.RoundTrip | device/libubox/blob.c:151-179 | any tree of attributes written into a new buffer with blob_put, blob_nest_start and blob_nest_end is shown by the iteration loops: the same tree with exact unpadded payloads |
| BlobTree.Write | device/libubox/blob.c:151-179 | writing a tree adds exactly it to the innermost frame, at every depth |
| BlobBuf.Buffer.New | device/libubox/blob.c:124-135 | a new attribute stands behind the innermost frame, whose length grows by it |
| BlobBuf.Buffer.Put | device/libubox/blob.c:151-163 | the buffer holds the encoding of its open frames, the innermost with the new attribute |
| BlobBuf.Buffer.NestStart | device/libubox/blob.c:165-171 | a new innermost frame; the cookie is the offset of the frame below, valid across regrowth |
| BlobBuf.Buffer.NestEnd | device/libubox/blob.c:173-179 | the innermost frame becomes the last attribute of the frame below, whose length is patched to count it |
| Blob.ForEach | device/libubox/blob.h:233-244 | the iteration loop visits the attributes the reference Items lists |
| Blob.HeaderReads | device/libubox/blob.h:79-102 | id and length read back from a header |
| Blob.HeaderNumber | device/libubox/blob.h:79-102 | the four bytes of a header are one number in network order |
| Blob.ItemsStart | device/libubox/blob.h:233-244 | on bytes: the iteration ends at length zero or where the padded length does not fit, and otherwise sees the id and the unpadded payload and goes on behind the padding |
| Blob.ShowsEncoded | device/libubox/blob.h:233-244 | for every tree of attributes with ids under 256 and sizes under 2^24, walking its encoding with the loops shows the same tree and the exact unpadded payloads, and goes on behind it |
| Blobmsg.HeaderNames | device/libubox/blobmsg.h:49-79 | name, length of the name header and data read back, whatever the data is |
| Blobmsg.NameHeaderLaid | device/libubox/blobmsg.h:49-52 | the bytes of the name header: two bytes of length, the name, and zeros up to a multiple of four |
| Blobmsg.AddField | device/libubox/blobmsg.c:294-309 | a field with its name is added to the innermost frame |
| Blobmsg.OpenNested | device/libubox/blobmsg.c:202-217 | a named table or array becomes the innermost frame |
| Blobmsg.ReadsAllBack | device/libubox/blobmsg.h:225-229 | for every list of messages, reading their encoding gives the same messages with names and nesting; data added as an array or table is read as one |
| Blobmsg.Write | device/libubox/blobmsg.c:167-217 | writing a message with the buffer operations adds its encoding, at every depth |
| Blobmsg.RoundTrip | device/libubox/blobmsg.c:167-217 | messages written into a new buffer and read from its first attribute are the same messages, if and only if their arrays and tables are nested messages and not raw data |
| UbusOrder.KeysOrdered | device/libubox/avl-cmp.c:19-23 | strcmp and the comparison of ids are total orders, which the tree needs |
| UbusOrder.StrCmpDecides | device/libubox/avl-cmp.c:19-23 | strings are ordered by the first characters that differ, and come behind those they start with |
| UbusEvent.Match | device/ubus/ubusd_event.c:137-144 | the length of the common start, and whether the strings are equal |
| UbusOrder.SharesLess | device/ubus/ubusd_event.c:168-171 | in sorted order, a key that shares less with the id than an earlier key is past the id |
| UbusEvent.ScanOver | device/ubus/ubusd_event.c:155-171 | from the early break on, no key is a prefix of the id |
| UbusEvent.Deliver | device/ubus/ubusd_event.c:108-135 | an object gets an event unless its client sent it or it has got it already |
| UbusEvent.Events.SendEvent | device/ubus/ubusd_event.c:146-186 | the objects sent to are exactly those of other clients with an equal pattern or a partial pattern that is a prefix, each once, in spite of the early break |
| UbusEvent.Events.AddPattern | device/ubus/ubusd_event.c:57-104 | the pattern without its star goes to its place in the tree; the error cases in their order |
| UbusEvent.Events.DeleteSource | device/ubus/ubusd_event.c:29-34 | exactly one pattern goes |
| UbusEvent.Events.CleanupObject | device/ubus/ubusd_event.c:36-44 | exactly the patterns of the object go |
| UbusEvent.Events.Run | device/ubus/ubusd_event.c:29-210 | whatever clients do in whatever order, each event goes exactly to the objects of other clients that listen to it by then, each once |
| UbusEvent.ListenThenHear | device/ubus/ubusd_event.c:57-186 | on characters: an object that registers a pattern hears exactly the events of other clients that it names, and with a star those that start so, in addition to what it heard before |
| UbusOrder.PrefixRange | device/ubus/ubusd_proto.c:194-204 | in sorted order the paths under a prefix are consecutive |
| UbusLookup.LookupPrefix | device/ubus/ubusd_proto.c:190-209 | exactly the objects whose path has the prefix, in order and once each; not found if and only if there are none |
| UbusLookup.Lookup | device/ubus/ubusd_proto.c:168-210 | all objects, the object of a path, or those under a prefix |
| UbusDirectory.Directory.Enter | device/ubus/ubusd_obj.c:148-158 | entering a path fails if and only if an object has it; otherwise exactly this path is added |
| UbusDirectory.Directory.Leave | device/ubus/ubusd_obj.c:212-216 | exactly the path of the object goes, if it has one |
| UbusDirectory.Directory.Lookup | device/ubus/ubusd_proto.c:168-210 | a lookup finds exactly the objects whose path is asked for, each once |
| UbusDirectory.AskedMeans | device/ubus/ubusd_proto.c:175-204 | on characters: which paths a lookup asks for, with and without a star |
| UbusBroker.Broker.Subscribe | device/ubus/ubusd_obj.c:170-186 | the subscription is in both lists; the owner of the target is told if it is the first |
| UbusBroker.Broker.Unsubscribe | device/ubus/ubusd_obj.c:188-198 | the subscription leaves both lists; the owner is told if it was the last |
| UbusBroker.Broker.GetType | device/ubus/ubusd_obj.c:56-101 | a named type that exists is referenced, a signature makes a new type, and a malformed one leaves nothing behind; the counts are those of TypeShared |
| UbusBroker.TypeShared | device/ubus/ubusd_obj.c:56-137 | an object with a named existing type shares the count of that type, one with a good signature has a new type with count one, and otherwise there is no type and no count changes |
| UbusRegistry.Registry.AddObject | device/ubus/ubusd_obj.c:129-168 | on the verified path tree: it fails if and only if another object has the path, and then objects, types, subscriptions and paths are as before; otherwise exactly the new object is added, with its path and one more reference to its type |
| UbusRegistry.Registry.FreeObject | device/ubus/ubusd_obj.c:200-223 | the object goes with its path and exactly its subscriptions |
| UbusBroker.Broker.FreeObject | device/ubus/ubusd_obj.c:200-223 | exactly the object and the subscriptions it has part in go; of every other object remain its client, type and the rest of its lists in order, and its owner is told if the last subscriber is gone |
| UbusBroker.Broker.AddWatch | device/ubus/ubusd_proto.c:363-386 | the status for every case; only in the good one the subscription, at the front of both lists, and nothing else changes |
| UbusBroker.Broker.RemoveWatch | device/ubus/ubusd_proto.c:388-414 | the status for every case: good if and only if there is such a subscription, and then one goes from both lists and nothing else changes |
| UbusRegistry.Registry.FreeClient | device/ubus/ubusd_proto.c:488-498 | exactly the objects of the client go, with their paths and the subscriptions they have part in; every subscription between the others stays, and of each other object remain its client, type, path and the rest of its lists |
| UbusBook.Run | device/ubus/ubusd_proto.c:102-410 | whatever clients do in whatever order, the objects, paths and subscriptions are those of a simple book of them, and every answer is right for the book as it is by then |
| UbusBook.AlwaysSane | device/ubus/ubusd_proto.c:363-386 | in every book that comes about so, no two objects have the same path, and each subscription joins existing objects of two clients |
| UbusBroker.SubscribedConsistent | device/ubus/ubusd_obj.c:170-186 | a new subscription keeps: in one list iff in the other, ends live and of different clients, type counts equal to live objects, alternating flags that tell the truth |
| UbusBroker.UnsubscribedConsistent | device/ubus/ubusd_obj.c:188-198 | the same for one that goes |
| UbusBroker.GoneConsistent | device/ubus/ubusd_obj.c:23-38 | the same for an object that goes, with its reference to the type |
| UbusTx.Msg.Ref | device/ubus/ubusd.c:30-47 | one reference more, for a slot of some client; a shared message gets its own data first |
| UbusTx.Msg.Unref | device/ubus/ubusd.c:76-90 | one reference of some client less, and freed if and only if neither the sender nor any slot of any client refers to it |
| UbusTx.Client.Enqueue | device/ubus/ubusd.c:110-126 | the message goes to the end of the ring; it fails (the process aborts) exactly when all slots are taken |
| UbusTx.Client.Dequeue | device/ubus/ubusd.c:161-173 | the first message leaves the ring, across wrap-around, and every message stays counted right |
| UbusTx.Client.Pass | device/ubus/ubusd.c:129-149 | the bytes sent grow by the message; it is written at once only if nothing is queued, and queued in order otherwise; the references of other clients are not touched |
| UbusDaemon.Daemon.Send | device/ubus/ubusd.c:129-153 | a message can be sent to any client whoever else has it queued, and all clients and counts stay right |
| UbusDaemon.Daemon.Flush | device/ubus/ubusd.c:193-216 | transmitting for one client keeps all clients and counts right |
| UbusDaemon.Daemon.Disconnect | device/ubus/ubusd.c:175-184 | a client that goes lets go of all its queued messages |
| UbusDaemon.Released | device/ubus/ubusd.c:76-90 | over all clients: a message is freed if and only if the sender and every queue slot of every client have let go of it |
| UbusTraffic.Traffic.Run | device/ubus/ubusd.c:76-260 | over any run of connections, messages to any clients, transmissions and disconnections without overflow: each client has got a prefix of exactly the messages sent to it, in order, and a message is freed if and only if no client waits for it |
| UbusTx.Client.Flush | device/ubus/ubusd.c:193-216 | bytes written and queued stay in step for every partial write; it goes on until nothing is queued or the socket takes less than offered; messages that are out are let go |
| UbusTx.Client.Drain | device/ubus/ubusd.c:175-184 | every queued message is let go |
| UbusTx.Client.WireIsPrefix | device/ubus/ubusd.c:186-216 | what has been written is a prefix of all messages in the order they were sent; read off the invariant that all operations of a client keep |
| UbusReq.Request.SetStatus | device/ubus/libubus-req.c:112-122 | completes at most once and not inside a data callback; the callback gets this status |
| UbusReq.Request.Timeout | device/ubus/libubus-req.c:136-142 | the timeout of a synchronous call completes it early with its own status, and at most once |
| UbusReq.Request.DataEnd | device/ubus/libubus-req.c:456-464 | a status that came during the data callback completes the request after it, with that status |
| UbusReq.Request.ProcessStatus | device/ubus/libubus-req.c:438-449 | a request completes with the status of the message, or with invalid argument if it has none |
| UbusReq.Request.ProcessData | device/ubus/libubus-req.c:451-477 | data that comes while the data callback runs is handed to it afterwards, all of it, the last first |
| UbusReq.Request.FindNotifyId | device/ubus/libubus-req.c:479-494 | the first awaited entry with the id, or none |
| UbusReq.FindRequest | device/ubus/libubus-req.c:496-521 | the first request the message is for |
| UbusReq.Request.Listing | device/ubus/libubus-req.c:534-549 | the first sixteen subscribers become awaited, and no more |
| UbusReq.Request.Answer | device/ubus/libubus-req.c:523-554 | exactly the answered entry is no longer awaited |
| UbusReq.Request.Check | device/ubus/libubus-req.c:556-557 | completes with status 0 when nothing is awaited; otherwise nothing changes |
| UbusReq.Request.Heard | device/ubus/libubus-req.c:523-558 | nothing is awaited if and only if each of the first sixteen listed subscribers has answered |
| UbusReq.Request.CompletedHeard | device/ubus/libubus-req.c:523-558 | a completed notification has completed once and, unless its time ran out, with status 0 and awaiting nobody: the status of ubusd and one of each of those subscribers have come; read off the invariant that all operations keep |
| Uloop.DiffExact | device/libubox/uloop.c:438-443 | what truncation drops has the sign of the difference of the microseconds |
| Uloop.DiffNotTransitive | device/libubox/uloop.c:438-443 | a concrete triple for which the comparison is not transitive |
| Uloop.BeforeRest | device/libubox/uloop.c:445-464 | the step of transitivity that insertion needs does hold, for all times |
| Uloop.Loop.Add | device/libubox/uloop.c:445-464 | every pair stays in order although the comparison is not transitive; the timer is behind all of the same time |
| Uloop.Loop.Cancel | device/libubox/uloop.c:495-504 | exactly the timer goes |
| Uloop.Loop.Set | device/libubox/uloop.c:475-493 | the timer is at its new place and all others stay in order |
| Uloop.SetTimeIs | device/libubox/uloop.c:475-493 | for every delay the deadline is exactly so much later or earlier; the microseconds are in 0..1000000 if and only if the delay does not take more of them away than the clock shows |
| Uloop.OverdueExactly | device/libubox/uloop.c:619-636 | a timer can be overdue behind one that is not due if and only if it is late by less than a millisecond and its microseconds are more than a second short of those of the clock |
| Uloop.SetBefore | device/libubox/uloop.c:475-493 | a timer that was set no later than the clock was read is never overdue behind one that is not due, for every delay |
| Uloop.Loop.Expire | device/libubox/uloop.c:619-636 | the first timer, if it is due; when there is none, no timer is overdue whose microseconds are not more than a second short of those of the clock |
| Uloop.Process | device/libubox/uloop.c:619-636 | the whole loop, whatever its callbacks do to the timers: the timers that fire and the list that is left are those of running the calls on a list of deadlines; at its end no timer is due, none is overdue whose microseconds are not more than a second short of those of the clock, and none at all if all delays give normal deadlines |
| Uloop.FiredPlain | device/libubox/uloop.c:619-636 | if callbacks do nothing, the due timers at the start of the list fire in order and the rest is left |
| Uloop.NegativeDelay | device/libubox/uloop.c:475-493 | a run of uloop_timeout_set with two negative delays after the clock was read, at whose end a timer is overdue behind one that is not due |
| Runqueue.Queue.TaskAdd | device/libubox/runqueue.c:148-176 | the task is on exactly one list, the counter is right, no wakeup is lost |
| Runqueue.Queue.TaskComplete | device/libubox/runqueue.c:206-219 | the task is on no list; the order of the others is kept |
| Runqueue.Queue.TaskCancel | device/libubox/runqueue.c:120-135 | a waiting task goes; a running one is marked and its callback called |
| Runqueue.Queue.TaskKill | device/libubox/runqueue.c:178-186 | up to the callbacks, the task is off its list, and both lists keep the others in order |
| Runqueue.Queue.Kill | device/libubox/runqueue.c:108-118 | the whole of runqueue_kill, whatever the callbacks of the killed tasks do: no task is left, the timer is idle, and the queue is as running the calls on plain lists leaves it |
| Runqueue.Queue.StartAll | device/libubox/runqueue.c:37-71 | the whole of __runqueue_start_next, whatever the started tasks do: the tasks are started and the calls of their callbacks done as on plain lists; at its end the queue is stopped, at its limit or has no waiting task, and one that has run empty knows it and will call back |
| Runqueue.StartedPlain | device/libubox/runqueue.c:37-71 | if callbacks do nothing, exactly as many of the first waiting tasks start as the limit leaves room for, in order |
| Runqueue.Queue.StartOne | device/libubox/runqueue.c:41-69 | the first waiting task starts unless the queue is stopped or at the limit; at the end nothing startable is left without a wakeup, and the timer is set for the empty callback exactly if the queue has run empty and has one |
| Runqueue.Queue.Fire | device/libubox/runqueue.c:37-80 | the shared timer does what it was armed for |
| Runqueue.Queue.Resume | device/libubox/runqueue.c:200-204 | what could not start while stopped will |
| Runqueue.Queue.CancelPending | device/libubox/runqueue.c:97-100 | all waiting tasks go and the active ones stay |

## Left out

- Sockets, epoll and kqueue, signals, file locking, error jumps, json-c, regular expressions and command-line tools; callbacks, sinks and sockets are arbitrary parameters or choices.
- Failing memory allocation, and with it the error returns of blob_buf_grow and ubus_msg_new.
- Wrap-around of 32-bit counters (event numbers, buffer counts, milliseconds of tv_diff); the model computes with unbounded integers. The 24-bit length and 8-bit id of an attribute and the 16-bit length of a name are modelled.
- The memory of a stream buffer and of a blob buffer is a sequence that is reassigned, not an array; aliasing of the attribute pointers into it is not modelled, offsets are.
- ustream after ustream_free_buffers, the string terminator of ustream_fixup_string, read-blocking flags and notification callbacks.
- Ustream.BufList.Consume: taking more than is stored, at which the source aborts, is excluded by its precondition.
- Ustream.BufList.FillRead: filling more than the free space, at which the source aborts, is excluded by its precondition.
- UciWord.ParseDouble: a backslash at the end of a line ends the parse with an error, where the source fetches the next line behind it in the same buffer.
- UciWord.ParseWord: a backslash at the end of a line ends the parse with an error, where the source fetches the next line behind it in the same buffer.
- UciWord.SkipWhitespace: a backslash at the end of a line ends the parse with an error, where the source fetches the next line behind it in the same buffer.
- UciWord.NextArg: a backslash at the end of a line ends the parse with an error, where the source fetches the next line behind it in the same buffer.
- UciWord.ParseArguments: a backslash at the end of a line ends the parse with an error, where the source fetches the next line behind it in the same buffer.
- UciWord.AssertEol: a backslash at the end of a line ends the parse with an error, where the source fetches the next line behind it in the same buffer.
- UciImport.ParseStatement: the same, and a command at the very end of a line, after which the source reads past its NUL, is an error.
- UciImport.ParseLine: the same two cases are errors.
- UciReader.Reader.GetLine: the call at offset zero. For a continued line the source may write outside the buffer (UciLines.ContinuedOutside) and may move it under the pointers of the parser, and so continued lines are left out everywhere.
- UciReader.ImportText: a text without NULs, a single new package; merging into a package with delta tracking and further packages in the same file are left out.
- UciReference.Lookup: indices too large for a C int are not modelled.
- UciStore.Scan: an index of white space only, which leaves the variable unset in the source, counts as no number.
- UciPackage.Package.AddSection: the generated name is a parameter; the hash that generates it is not modelled.
- UciPackage.Package.AddList: without an option name it is invalid, where the source would make a list without a name.
- The text of records in delta files; the model starts from records. Overlaid delta paths, reverting and committing.
- Blob.ForEach: fewer than four bytes at the end, where the source would read a header that is not all there, end the loop.
- blob_parse and blobmsg_parse with their policies, and formatting as JSON.
- UbusEvent.Events.AddPattern: for the empty pattern the source looks at the byte before the string; the model takes it as a pattern without a star.
- UbusLookup.Lookup: the same holds for the empty path.
- UbusEvent.Events.SendEvent: which objects get the event, not the bytes; the source rewrites the object id in a message that may be queued already. The marks of objects are kept in a map.
- UbusRegistry.Registry.AddObject: the new ids are parameters, as is whether a signature is well formed; the methods in a signature, the events about new objects and subscriptions to the internal event object are not modelled.
- UbusTx.Msg.Ref: a message does not change once it has been sent.
- UbusReq.Request.Answer: the pending mask is a sequence of seventeen bits; cancelled requests and the status callback of a notification are not modelled.
- Uloop.Loop.Expire: one round of the loop; Uloop.Process is the whole, with callbacks that set and cancel timers.
- Runqueue.Queue.TaskKill: up to the callbacks; Runqueue.Queue.Kill has them and the last call. Callbacks that kill tasks themselves, run and cancel timeouts of tasks and the safe list behind the two lists are not modelled.
- UbusTraffic.Traffic.Run: when the queue of a client overflows, the process aborts, and the run ends.
- Members that would only add easy results: vlist.c, usock.c, jshn.c, json_script.c, the kernel modules and the Python tools.
