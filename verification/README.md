# mcu-updater: a verified model

mcu-updater keeps the firmware of a 3D printer's boards up to date: it edits a hand-written
registry file, builds and writes firmware with Klipper stopped around the write, and reports
its progress to a web panel. This project models the parts of it that have to be right and
proves what they promise, or exactly when they keep the promise.

`dafny verify dfyconfig.toml` checks everything. Lemmas say `{:induction false}`: the proof is
the body that is written.

**The document and the registry in it.** `Text`, `CfgLine` and `CfgIndex` are the one-pass
reader: line recognisers over strings, and a scan with a current section and an open option.
`CfgLocality` proves that splicing a block of lines changes one option of the next reading and
shifts the rest. `CfgRender` and `CfgComments` are the printer of one option and what it does
with comments. `CfgGrammar` and `CfgLayout` say what the format is character by character, read
and printed, and hold the recognisers and the printer to it; `CfgKeep` and `SavedLines` follow
every line that an edit, or a whole save, does not own. `CfgEdit` and `CfgTable` lift every edit
of lines to the obvious edit of a table of sections, keys and values; `CfgDocuments` is the class
with the parsing loop, proved against all that; `CfgText` and `CfgLaws` are the laws a caller
sees. `Registry`, `RegistryLaws`, `RegistryFile` and `Settings` are the two things stored in the
file, from text to text.

**Protocols.** `Service` (stop Klipper, write, start it again, with a journal and crashes),
`Lock` (a kernel lock and a record on disk), `Jobs` (one slot, a worker, `cancel`),
`Transactions` (locked edits of one file) and `Adoption` (late boards) are state machines whose
steps are the code's own atomic pieces; `Runs` has what holds of runs in general. A function
`Act` says what one process does to the shared world, and a theorem speaks of every
interleaving. Where a process works alone there is also the method with its loop (`Service`'s
`Operation`, `Adoption`'s `Agent`).

**The rest.** `LogRing`, `LogStream` and `LogClient` take a log line from the job to the screen;
`Kconfig` and `KconfigSessions` are the configuration screens; `MakefilePatches` the temporary
patches; `Framing` and `Rpc` the connection; `Dfu` the serial number of a board in DFU mode.

## Findings

Where the code does less than its comments say, the model follows the code, states exactly when
the promise holds, and names an input or a run for which it does not:

- Setting a single-line value twice can duplicate its comment: the kept comment is looked for
  after the first `=` of the text (`SingleIdempotent`, `SetTextTwice`).
- A list item that stands twice with two comments cannot keep both, and an empty list keeps none
  (`CommentConservation` says exactly which comments survive; `RepeatedItemLosesComment`,
  `ItemTwice`, `EmptyListDropsComments`).
- Removing a key that occurs twice brings the second one to light (`RemoveGet`), so a setting that
  a save drops can come back, or be unreadable (`TypeReads` says exactly when; `SecondComesBack`).
- A section header with a blank too many, behind the type's own section, is what is loaded: the
  type cannot be edited any more (`RegistryRoundTrip` and `FileRoundTrip` say exactly which types
  come back; `AliasShadowsEdit`, `BlankTooMany`).
- A setting spelled with dashes behind the same setting spelled with underscores overrules what is
  saved (`OptionsRoundTrip` says exactly when settings come back; `DashesOverrule`).
- A second process that starts up reconciles without looking at the lock: it can erase the
  journal between a record and its stop, and start Klipper during a write (`JournalLost`,
  `StartedMidFlash`). Exactly one step does the first (`RecordIsLostIff`); the second is one of the
  three steps after which a board can be written with the service up (`WritesUpIff`), and another
  is to go on when an activity check fails, which reads as "stopped" (`BlindCheckWritesUp`). The
  record is kept as long as no process begins an operation, or a reconciliation with work to do,
  while another one is in the middle of either (`StopsAreRecorded`); and with checks that work, and
  no start by hand in the middle, no board is written with the service up (`NoWriteWhileUp`).
- `holder()` can name a dead holder: while the next one has the lock (`StaleName`), while nobody
  has it and another query's probe is taken for a holder (`ProbeTakenForHolder`), and when its
  probe cannot open the file (`UnopenedProbeNamesTheDead`). The name it gives is right exactly if
  that holder had the lock when the record was read and has not moved since (`AnswerIsTrueIff`);
  an answer that names nobody is always right (`NobodyIsTrue`).
- `cancel` can stop the job after the one that was meant (`CancelHitsAnother`): exactly if the flag
  is set while a job listens that nobody asked to stop (`CancelStraysIff`). It would still do so if
  it were one step (`CancelHitsAnotherStill`). And it can be lost (`CancelIsLost`): exactly if it is
  confirmed before `submit` has cleared the flag (`CancelIsLostIff`); later it reaches its job
  (`CancelReachesItsJob`).
- The command line tool saves the registry without the lock: an edit can be lost, or the file
  torn (`EditIsLost`, `FileIsTorn`). Exactly one step does it, a rename of what the edit does not
  make of the file as it is by then (`SpoilsIff`); and none does as long as an unlocked
  transaction and any other do not overlap (`CourteousIsSerial`).
- Two patches for one makefile leave the first line behind; the tree is restored exactly if no two
  patches append to one file (`ForwardOrderRestores`, `TwoPatchesLeaveTheFirst`).
- Between its two renames, a configuration save leaves no file where it is read
  (`SaveForgetsForAMoment`).
- A result that cannot be written as JSON is never answered (`UnencodableResultIsNotAnswered`).
- A board can be tracked twice if its serial is added between an adoption pass's look and its edit
  for it, or if the command line adds a serial that another type has; of passes and edits nothing
  else does it (`EditedInBetween`, `AddedExclusiveIff`, `BoardTwiceIff`, `NoBoardTwiceInBetween`).
- A crash lets a pairing act twice (`PairingActsTwice`, `AnyPairingCanActTwice`): exactly if it comes
  between the edit for a board that is adopted and forgetting its pairing (`LeavesUsedIff`).

## Model

| member | source | states |
|---|---|---|
| Text.StripIs | src/mcu_updater/cfgdoc.py:158-166 | a text without blanks at its ends is what stripping it, with any blanks around it, gives |
| Text.SplitTerminated | src/mcu_updater/cfgdoc.py:121 | lines without line breaks, each ended by one, split back into themselves |
| Text.SplitShape | src/mcu_updater/cfgdoc.py:121 | splitting gives lines without breaks that rebuild the text up to its last break |
| CfgLine.CommentStartIs | src/mcu_updater/cfgdoc.py:70-79 | the inline comment starts at the first `#` or `;` that opens the text or follows a blank |
| CfgLine.CleanIff | src/mcu_updater/cfgdoc.py:70-79 | a value survives stripping exactly if it is trimmed and no `#` or `;` opens it or follows a blank |
| CfgLine.StripInlineDrops | src/mcu_updater/cfgdoc.py:70-79 | a comment set off by blanks is dropped from a clean value, and nothing else |
| CfgLine.IndentedIsContinuation | src/mcu_updater/cfgdoc.py:82-92 | an indented text that is no comment is read as a continuation, whatever it looks like |
| CfgLine.StartLine | src/mcu_updater/cfgdoc.py:39-40 | a line with a valid key and a colon opens that option with the stripped rest |
| CfgLine.HeaderLine | src/mcu_updater/cfgdoc.py:39 | a bracketed valid name is read as a header of that name |
| CfgGrammar.StripExactly | src/mcu_updater/cfgdoc.py:86-87 | stripping a text gives what stands between its blanks at both ends, and only that |
| CfgGrammar.CommentIff | src/mcu_updater/cfgdoc.py:41 | a comment is a line whose first character that is not blank is `#` or `;` |
| CfgGrammar.InlineExactly | src/mcu_updater/cfgdoc.py:70-79 | what stays of a value is all of it up to the first `#` or `;` that opens it or follows a blank, without the blanks before that |
| CfgGrammar.HeaderIff | src/mcu_updater/cfgdoc.py:39 | a header is a name in brackets, from the first column on, with at most blanks and a comment behind it |
| CfgGrammar.ContinuationIff | src/mcu_updater/cfgdoc.py:90-92 | a continuation is an indented line that is not blank, and adds itself without its comment |
| CfgGrammar.OptionIff | src/mcu_updater/cfgdoc.py:40 | a line opens an option exactly if it is no header and has a key, a colon or an equals sign, and a rest, which is its value, stripped and without a comment |
| CfgGrammar.EitherSeparator | src/mcu_updater/cfgdoc.py:21-23 | a colon and an equals sign, with blanks before it or without, say the same |
| CfgGrammar.ValueRead | src/mcu_updater/cfgdoc.py:130-189 | what a file says under a key: the value of the first line that opens it in the first section of that name |
| CfgIndex.ScanPrefix | src/mcu_updater/cfgdoc.py:130-189 | what has been read of a document depends on the lines read only |
| CfgIndex.ScanPlaced | src/mcu_updater/cfgdoc.py:130-189 | spans are ordered and nested: options follow the header, in order, within the section, within the document |
| CfgIndex.SectionHistory | src/mcu_updater/cfgdoc.py:136-156 | a section was opened by its header line and reaches to the next header or the end of what was read |
| CfgIndex.OptionHistory | src/mcu_updater/cfgdoc.py:158-189 | an option was opened by its key line, with what stands before it read before, and owns the continuation lines behind it, up to the first line that is none |
| CfgLocality.StepGraft | src/mcu_updater/cfgdoc.py:136-189 | reading one line only touches the last section, so it commutes with putting other sections in front |
| CfgLocality.Tail | src/mcu_updater/cfgdoc.py:130-189 | from a line that does not continue an option on, two documents with equal tails are read alike, up to a shift |
| CfgLocality.BlockScan | src/mcu_updater/cfgdoc.py:176-187 | a key line with its continuation lines is read as one option with the block's value |
| CfgLocality.SpliceLocality | src/mcu_updater/cfgdoc.py:292-296 | after replacing the lines of an option, the new reading is the old one with that option exchanged and all later spans shifted |
| CfgRender.RenderIsBlock | src/mcu_updater/cfgdoc.py:261-290 | what is printed for an option is one option when read: a key line and continuation lines |
| CfgRender.RenderValue | src/mcu_updater/cfgdoc.py:261-290 | the printed lines are read as the value given, whatever comments were kept |
| CfgRender.ListReads | src/mcu_updater/cfgdoc.py:210-215 | a list of clean items is read back item by item |
| CfgRender.DecorationTexts | src/mcu_updater/cfgdoc.py:224-258 | every comment that is kept is a comment by itself |
| CfgLayout.CommentInIs | src/mcu_updater/cfgdoc.py:250-255 | between a text and the comment kept from it stand blanks only |
| CfgLayout.ListPrinted | src/mcu_updater/cfgdoc.py:264-278 | a new list is its key line, and each item on a line of its own behind four blanks |
| CfgLayout.ListIsNeat | src/mcu_updater/cfgdoc.py:264-278 | every line of a list has four blanks, a text, and two blanks before a comment, whatever comments are kept |
| CfgLayout.LinePrinted | src/mcu_updater/cfgdoc.py:284-290 | a single-line value is printed behind its key, with the comment of the old line, if that has one colon and no equals sign behind it, two blanks behind it |
| CfgLayout.ListOfLines | src/mcu_updater/cfgdoc.py:210-215 | each further line of a value is one more item, stripped, unless it is blank |
| CfgLayout.BlockReads | src/mcu_updater/cfgdoc.py:158-174 | each continuation line adds a line to the value, without its comment, unless nothing is left |
| CfgComments.DecorationIsNotes | src/mcu_updater/cfgdoc.py:224-258 | the dictionaries of comments are the last word of an item-by-item account of the block |
| CfgComments.NotesOfBlock | src/mcu_updater/cfgdoc.py:264-278 | the printed block read item by item: each item with the comments kept for it, in order, the rest at the end |
| CfgComments.ListIdempotent | src/mcu_updater/cfgdoc.py:261-282 | printing the same list over its own output gives the same lines, repeated items included |
| CfgComments.CommentConservation | src/mcu_updater/cfgdoc.py:224-282 | all comments of the block survive on their items exactly if every commented item is in the new list, none has other comments further down, and the list does not become empty under closing comments |
| CfgComments.LastWordIff | src/mcu_updater/cfgdoc.py:241-258 | an entry keeps its comments exactly if they are, of both kinds, those of the last entry of its item that has any of that kind |
| CfgComments.AllItemsKeepComments | src/mcu_updater/cfgdoc.py:224-282 | with distinct old items, all of them in the new list, every comment survives on the same item |
| CfgComments.RepeatedItemLosesComment | src/mcu_updater/cfgdoc.py:241-258 | an item listed twice with different comments, standalone or inline, does not keep both, whatever the new list is |
| CfgComments.ItemTwice | src/mcu_updater/cfgdoc.py:253-258 | such a block: the same item twice, each time with its own inline comment |
| CfgComments.EmptyListDropsComments | src/mcu_updater/cfgdoc.py:265-266 | setting the empty list drops all comments of the block |
| CfgComments.SingleIdempotent | src/mcu_updater/cfgdoc.py:284-290 | printing a single-line value over its own output gives the same line exactly if the text and its comment are stable under the split at colon and equals sign |
| CfgEdit.Spans | src/mcu_updater/cfgdoc.py:130-189 | all positions of the index lie inside the document |
| CfgEdit.OptionIs | src/mcu_updater/cfgdoc.py:158-187 | every option of the index is what its own lines say: key, place, and the value of the key line and the items behind it |
| CfgEdit.SpliceOption | src/mcu_updater/cfgdoc.py:313-314 | over an option found by the index, locality holds unconditionally |
| CfgEdit.SpliceInsert | src/mcu_updater/cfgdoc.py:316-319 | a block inserted behind the last non-blank line of a section is one more option of it |
| CfgEdit.EndIsNoContinuation | src/mcu_updater/cfgdoc.py:136-156 | the line behind a section is a header |
| CfgEdit.RemoveSectionLocality | src/mcu_updater/cfgdoc.py:340-352 | removing a section removes its lines and shifts the later ones; the branch for a trailing blank line is never taken |
| CfgEdit.AddSectionLocality | src/mcu_updater/cfgdoc.py:331-338 | a new section is added at the end, and no other section changes but in its end |
| CfgKeep.RemoveOptionExactly | src/mcu_updater/cfgdoc.py:321-329 | removing an option takes out its lines; every line before them keeps its place, every line behind moves up by as many, and nothing else changes |
| CfgKeep.RemoveSectionExactly | src/mcu_updater/cfgdoc.py:340-352 | removing a section takes out its lines in the same way |
| CfgKeep.AddSectionExactly | src/mcu_updater/cfgdoc.py:331-338 | a new section is a header at the end, with a blank line before it unless one is there or the file is empty |
| CfgKeep.SetExactly | src/mcu_updater/cfgdoc.py:306-314 | setting an option that is there exchanges its lines for what is printed, and no others |
| CfgKeep.InsertExactly | src/mcu_updater/cfgdoc.py:316-319 | a new option goes behind the last line of its section that is not blank, and nothing else changes |
| CfgKeep.SetKeeps | src/mcu_updater/cfgdoc.py:298-319 | setting a key keeps every line that is not its own, in order, and adds at most the header of its section |
| CfgKeep.RemoveOptionKeeps | src/mcu_updater/cfgdoc.py:321-329 | removing a key keeps every line that is not its own, in order, also those of a second option of that key |
| CfgKeep.RemoveSectionKeeps | src/mcu_updater/cfgdoc.py:340-352 | removing a section keeps every line of the others, in order |
| CfgTable.LookupAgrees | src/mcu_updater/cfgdoc.py:203-208 | looking up in the index is looking up in the table |
| CfgTable.SetRefines | src/mcu_updater/cfgdoc.py:298-319 | `set` never fails for a valid name, and changes one entry of the table |
| CfgTable.WrittenClean | src/mcu_updater/cfgdoc.py:298-319 | what `set` leaves for a clean value is that value |
| CfgTable.RemoveRefines | src/mcu_updater/cfgdoc.py:321-329 | removing an option removes the first entry with its key |
| CfgTable.AddSectionRefines | src/mcu_updater/cfgdoc.py:331-338 | adding a section adds an empty row unless there is one |
| CfgTable.RemoveSectionRefines | src/mcu_updater/cfgdoc.py:340-352 | removing a section removes its first row |
| CfgText.ReadRenders | src/mcu_updater/cfgdoc.py:354-356 | printing what was read gives the text back exactly if it is empty, or ends in one line break after a line that is not empty |
| CfgText.RenderReads | src/mcu_updater/cfgdoc.py:354-356 | reading what was printed gives the lines back, but for one trailing empty line |
| CfgText.RenderKeepsTable | src/mcu_updater/cfgdoc.py:354-356 | reading what was printed changes no value |
| CfgDocuments.LiveLookup | src/mcu_updater/cfgdoc.py:145-156 | first-wins dictionaries answer like a search for the first occurrence |
| CfgDocuments.CfgDocument.constructor | src/mcu_updater/cfgdoc.py:120-126 | a document is the lines of its text, indexed |
| CfgDocuments.CfgDocument.Parse | src/mcu_updater/cfgdoc.py:130-189 | the parsing loop computes the specified index, with its dictionaries and its list of duplicates |
| CfgDocuments.CfgDocument.Get | src/mcu_updater/cfgdoc.py:203-208 | the value of the first such key of the first such section |
| CfgDocuments.CfgDocument.GetList | src/mcu_updater/cfgdoc.py:210-215 | its items, stripped, blank ones dropped |
| CfgDocuments.CfgDocument.SectionNames | src/mcu_updater/cfgdoc.py:196-201 | the names under a prefix, in file order |
| CfgDocuments.CfgDocument.Decorate | src/mcu_updater/cfgdoc.py:224-258 | the comment loop computes the specified decoration |
| CfgDocuments.CfgDocument.RenderBlock | src/mcu_updater/cfgdoc.py:264-278 | the printing loop computes the specified block |
| CfgDocuments.CfgDocument.RenderOption | src/mcu_updater/cfgdoc.py:261-290 | list, multi-line text and single-line text are printed as specified |
| CfgDocuments.CfgDocument.Splice | src/mcu_updater/cfgdoc.py:292-296 | the lines are spliced, each other line where it was or moved by as many, and the index is that of the new lines |
| CfgDocuments.CfgDocument.AddSection | src/mcu_updater/cfgdoc.py:331-338 | the new lines are those of the specified edit |
| CfgDocuments.CfgDocument.Set | src/mcu_updater/cfgdoc.py:298-319 | the new lines are those of the specified edit, and failure is the `KeyError` case |
| CfgDocuments.CfgDocument.RemoveOption | src/mcu_updater/cfgdoc.py:321-329 | the new lines, each other line kept, and whether there was such an option |
| CfgDocuments.CfgDocument.RemoveSection | src/mcu_updater/cfgdoc.py:340-352 | the new lines, each other line kept, and whether there was such a section |
| CfgDocuments.CfgDocument.RenderDocument | src/mcu_updater/cfgdoc.py:354-356 | the text of the lines |
| CfgLaws.SetGet | src/mcu_updater/cfgdoc.py:298-319 | after `set`, that key reads as the value and every other section and key as before |
| CfgLaws.RemoveGet | src/mcu_updater/cfgdoc.py:321-329 | after `remove_option`, that key reads as its second occurrence if there is one, and everything else as before |
| CfgLaws.FoundAgain | src/mcu_updater/cfgdoc.py:298-314 | after `set` the index points exactly at the lines that were written |
| CfgLaws.SetListTwice | src/mcu_updater/cfgdoc.py:298-319 | setting the same list twice gives the same document as once |
| CfgLaws.SetTextTwice | src/mcu_updater/cfgdoc.py:298-319 | setting the same text twice gives the same document as once exactly if text and kept comment are stable |
| Registry.ValidSection | src/mcu_updater/config.py:140-172 | the header of a type name that is let through reads back as its section, and as its type |
| Registry.TypeNameIff | src/mcu_updater/config.py:130-172 | a type name is let through exactly if it is up to 64 letters, digits, dots, underscores and hyphens, and neither `.` nor `..` |
| Registry.TypeHeader | src/mcu_updater/config.py:208-212 | a section is that of a type exactly if it says `mcu`, a blank and a name |
| Registry.TruthIff | src/mcu_updater/cfgdoc.py:45-63 | the words of yes and no, in whatever case; anything else means neither |
| Registry.PatchLine | src/mcu_updater/config.py:64-81 | a patch is a file, the first arrow and a line, both stripped and neither empty |
| Registry.ReadNameable | src/mcu_updater/config.py:208-212 | every type name that is read from a header makes a header that reads back |
| Registry.PatchRoundTrip | src/mcu_updater/config.py:64-81 | a patch is read back from its line exactly if both parts are trimmed and not empty and the file has no arrow |
| RegistryLaws.EditsSet | src/mcu_updater/config.py:297-319 | after all edits of one type each of its keys says what its edit said, and a key that was dropped what stood second under it |
| RegistryLaws.TypeReads | src/mcu_updater/config.py:208-235 | a section that was saved says the same as the type exactly if what stood second under the keys that were dropped says nothing, and is read at all exactly if such patches parse |
| RegistryLaws.SavedSays | src/mcu_updater/config.py:286-319 | what the section of a type says after a save, key by key: chipset, serials, whether Katapult is installed, arguments and patches of both firmwares, and under a key that is dropped what stood there second |
| RegistryLaws.NewSectionInOrder | src/mcu_updater/config.py:297-319 | a new section has the keys that are put, in the order of the edits |
| RegistryLaws.SectionsInOrder | src/mcu_updater/config.py:286-319 | a save leaves the sections that stay in their order and adds those of new types behind them in theirs |
| RegistryLaws.LoadedInOrder | src/mcu_updater/config.py:208-235 | types are loaded in the order in which the file first names them |
| RegistryLaws.SecondComesBack | src/mcu_updater/config.py:302-305 | a second `katapult_installed: false` is what the type says after the first one was dropped |
| RegistryLaws.LoadRowsNamed | src/mcu_updater/config.py:208-235 | a table loads exactly if every type section in it can be read, and each type is what the last section naming it says |
| RegistryLaws.SavedNamed | src/mcu_updater/config.py:286-319 | the sections that name a type after a save are those from before, in order, with the edits in its own one, or that one added at the end; for a type that is gone there are none |
| RegistryLaws.RegistryRoundTrip | src/mcu_updater/config.py:188-326 | what was saved loads exactly if every section left can be read; no other type is loaded; and a type comes back exactly if no other spelling of its header stands behind its section and nothing comes to light under dropped keys, or if the last such spelling already says the same |
| RegistryLaws.NormalKeeps | src/mcu_updater/config.py:106-113 | normal form keeps name, chipset, serials, stripped arguments, the patches that say something and whether Katapult is installed, and is its own normal form |
| RegistryLaws.SaveKeepsOthers | src/mcu_updater/config.py:286-319 | saving keeps every other section, and every unknown key of a type section |
| RegistryLaws.OtherSectionKept | src/mcu_updater/config.py:208-210 | edits of another section never change the registry view |
| RegistryLaws.AliasShadowsEdit | src/mcu_updater/config.py:208-235 | a type with another spelling of its header behind its own section loads after a save as it did before, whatever was saved |
| RegistryLaws.BlankTooMany | src/mcu_updater/config.py:208-210 | one blank too many in a second header is such a spelling |
| RegistryFile.SaveRefines | src/mcu_updater/config.py:286-319 | saving into the lines is saving into the table |
| SavedLines.SaveKeepsLines | src/mcu_updater/config.py:286-326 | a save keeps every line that is in no option it sets or drops and in no section it removes, in order; any other line is an option it set, blank, or the header of a type |
| RegistryFile.FileRoundTrip | src/mcu_updater/config.py:188-326 | the same from text to text: exactly when the file that was written loads, and exactly which types it gives back |
| RegistryFile.ReadPatches | src/mcu_updater/config.py:218-229 | the patches of one firmware, or failure at the first that does not parse |
| RegistryFile.ReadSection | src/mcu_updater/config.py:213-233 | one section of the document as a type |
| RegistryFile.LoadTypes | src/mcu_updater/config.py:208-235 | the loop over the sections computes the specified types |
| RegistryFile.Load | src/mcu_updater/config.py:188-235 | a text is loaded as specified, and refused if a section occurs twice |
| RegistryFile.RegistryObject.Save | src/mcu_updater/config.py:286-326 | the document ends up as specified, and the text is its rendering |
| RegistryFile.RegistryObject.SaveType | src/mcu_updater/config.py:297-319 | one type's edits are made in order |
| RegistryFile.RegistryObject.AddSerial | src/mcu_updater/config.py:437-443 | an unknown type, a serial that is there already, or one more at the end |
| RegistryFile.RegistryObject.RemoveType | src/mcu_updater/config.py:432-435 | the type is taken out and returned |
| RegistryFile.RegistryObject.FindTypesForSerial | src/mcu_updater/config.py:356-358 | the types that list the serial, in order |
| RegistryFile.RegistryObject.ResolveSerial | src/mcu_updater/config.py:360-402 | the type a serial belongs to, or which of the four refusals, in every case just one |
| RegistryFile.TrackersOf | src/mcu_updater/config.py:356-358 | a type is among the trackers exactly if it lists the serial |
| RegistryFile.TrackersInOrder | src/mcu_updater/config.py:356-358 | they are listed in the order of the types |
| Settings.IntReads | src/mcu_updater/settings.py:134-135 | a number is read back from its text |
| Settings.NumberIff | src/mcu_updater/settings.py:134-135 | a number is digits, with single underscores between them, and a sign before them or none |
| Settings.NumberWritten | src/mcu_updater/settings.py:165-166 | a number is written as its digits, with a sign if it is negative |
| Settings.NothingIsSaid | src/mcu_updater/settings.py:26-70 | a file without the section gives the defaults: no dry run, and no flashing from the panel |
| Settings.SettingSays | src/mcu_updater/settings.py:154-171 | what the file says of each setting after a save, in the words of the file |
| Settings.NewSettingsInOrder | src/mcu_updater/settings.py:162-167 | the settings in a file that had none stand in the order of their fields |
| Settings.LoadSettings | src/mcu_updater/settings.py:100-151 | the settings of a text, key by key in the order of the section, or refusal of a repeated section or a value that does not parse |
| Settings.LoadKeysField | src/mcu_updater/settings.py:118-143 | reading key by key fails exactly if a value does not parse, and a field has what the last key that means it says |
| Settings.OptionsRoundTrip | src/mcu_updater/settings.py:100-171 | settings that were saved are loaded exactly if the section is not repeated, the backend is known, every key spelled with dashes parses, and none of them stands last for a field that is there under its own name and says otherwise |
| Settings.SettingsRoundTrip | src/mcu_updater/settings.py:100-171 | the same from text to text |
| Settings.DashesOverrule | src/mcu_updater/settings.py:118-135 | with `dry_run` and then `dry-run: true` in the file, saving `dry_run: false` does not stick |
| Settings.OptionsKeepRegistry | src/mcu_updater/settings.py:154-171 | saving the settings never changes the registry view |
| Settings.RegistryKeepsOptions | src/mcu_updater/config.py:286-319 | saving the registry never changes the settings view |
| Settings.SaveSettings | src/mcu_updater/settings.py:154-171 | the loop over the fields makes the specified document |
| Settings.SaveSettingsRefines | src/mcu_updater/settings.py:154-171 | saving into the lines is saving into the table |
| SavedLines.SettingsKeepLines | src/mcu_updater/settings.py:154-171 | a save of the settings keeps every line that belongs to none of them, in order; any other line is a setting, blank, or the header of their section |
| Service.OneOperation | src/mcu_updater/service.py:252-312 | in every run at most one process is inside an operation, holds the lock, and has done at most one stop, then writes, then one start |
| Service.ActSafe | src/mcu_updater/service.py:220-312 | every step keeps it that a stop no start was tried for is on record, and meddles only with the lock free or its own |
| Service.StopsAreRecorded | src/mcu_updater/service.py:187-312 | in every run, whatever crashes, raises or fails, such a stop is in the journal: of the code as it is if processes enter operations and reconciliations apart, and always if reconciling took the lock |
| Service.RecordIsLostIff | src/mcu_updater/service.py:230-245 | in the code as it is exactly one step takes a stop off record: a reconciliation unlinking the journal while a stop is owed or about to be issued |
| Service.RecordIsKept | src/mcu_updater/service.py:187-312 | every run of the code without that step, from the start, keeps every stop on record |
| Service.ApartNeverLoses | src/mcu_updater/service.py:230-245 | in runs of processes that enter apart nobody ever takes that step |
| Service.KlipperComesBack | src/mcu_updater/service.py:220-245 | after every run without that step a working reconciliation ends with nothing owed and nothing on record and, if there was either, the service up |
| Service.NothingRecordedNothingDone | src/mcu_updater/service.py:220-229 | with nothing on record a reconciliation does nothing, whatever is owed |
| Service.NoWriteWhileUp | src/mcu_updater/service.py:270-312 | in every such run with working checks, in which nobody starts the service by hand while somebody is inside, whoever is at a board has the lock and the service down |
| Service.WritesUpIff | src/mcu_updater/service.py:252-312 | in the code as it is exactly three kinds of step open the way to a write with the service up: a start by hand or by a reconciliation while somebody is inside, and going inside on a check that failed |
| Service.WrittenDownWithout | src/mcu_updater/service.py:252-312 | every run of the code without such a step, from the start, writes no board with the service up |
| Service.LeftAlone | src/mcu_updater/service.py:276-279 | an operation that found the service down neither stops nor starts it nor touches the journal |
| Service.Operation.StopService | src/mcu_updater/service.py:282-305 | the stop and the polling loop end in the block or in the refusal |
| Service.Operation.Boards | src/mcu_updater/agent/methods.py:2016-2057 | the boards are written in order up to the cancellation, which is looked for between boards only |
| Service.Operation.FlashAll | src/mcu_updater/agent/methods.py:1997-2065 | a whole batch, also one in which the stop or a write raises: what was done, and the service as it was found unless stop or start had no effect |
| Service.JournalLost | src/mcu_updater/service.py:230-245 | as coded, a reconciliation in between erases the record of a stop to come, and after a crash nothing remains |
| Service.StartedMidFlash | src/mcu_updater/cli.py:538-561 | as coded, a second process starts the service while a board is written |
| Service.BlindCheckWritesUp | src/mcu_updater/service.py:81-88 | a check that fails reads as stopped, and the board is written with the service up |
| Lock.ActFits | src/mcu_updater/lock.py:106-192 | every step of one actor keeps it that it owns the lock exactly where it should, changes the record only as owner, and tells nobody anything false |
| Lock.OneOwner | src/mcu_updater/lock.py:106-192 | in every run at most one actor owns the lock, nobody gone does, a holder's record is its own, refusals saw others at both attempts, and a probed answer names a record only with the lock taken |
| Lock.HolderIsNamed | src/mcu_updater/lock.py:106-129 | while somebody holds the lock, every query begun since names exactly that holder, every finished attempt is refused, and no probe erases the record |
| Lock.LeftoverIsHarmless | src/mcu_updater/lock.py:151-177 | with nobody in possession an acquisition succeeds whatever record is left |
| Lock.LeftoverIsWiped | src/mcu_updater/lock.py:37-76 | with nobody in possession a query says so and removes what is left |
| Lock.NoStaleLock | src/mcu_updater/lock.py:151-177 | after every run, once those inside are gone, an acquisition succeeds |
| Lock.SecondAttemptDecides | src/mcu_updater/lock.py:151-177 | an attempt takes a free lock; on a taken one it is made once more, whatever others do meanwhile, and fails for good exactly if the lock is taken then too |
| Lock.ReleaseFrees | src/mcu_updater/lock.py:179-192 | a holder that is done empties the record and gives the lock back; if the record cannot be emptied, it stays |
| Lock.AnswerIsTrueIff | src/mcu_updater/lock.py:106-129 | an answer that names somebody is true at its probe exactly if whoever is named held the lock when the record was read and has taken no step since, whatever others did in between |
| Lock.NobodyIsTrue | src/mcu_updater/lock.py:106-129 | when an answer names nobody, nobody holds the lock |
| Lock.StaleName | src/mcu_updater/lock.py:125-129 | a run in which a query names a dead holder while another one holds the lock |
| Lock.ProbeTakenForHolder | src/mcu_updater/lock.py:125-129 | after any holder died, two queries are enough for one to name it with nobody in possession, for it finds the lock taken by the other's probe |
| Lock.UnopenedProbeNamesTheDead | src/mcu_updater/lock.py:55-58 | after any holder died, a query whose probe cannot open the file names it |
| Jobs.ActFits | src/mcu_updater/jobs.py:262-352 | every step of one job keeps its place, slot, lock and state in agreement, and touches no other job |
| Jobs.OneJob | src/mcu_updater/jobs.py:249-355 | in every interleaving one job at most is in the slot, bodies run with the lock, finished jobs have neither, and the recent ones are the completed ones, last submitted first, cut to the bound |
| Jobs.SubmissionsApart | src/mcu_updater/jobs.py:249-275 | while a submission is under way no other begins and no slot is freed; otherwise one takes the slot exactly if slot and lock are free |
| Jobs.StateIsFinal | src/mcu_updater/jobs.py:308-352 | a job that has left RUNNING never changes its state again |
| Jobs.SlotDrains | src/mcu_updater/jobs.py:334-352 | the job in the slot can always go on, and within five steps slot and lock are free |
| Jobs.CancelHitsItsTarget | src/mcu_updater/jobs.py:359-376 | with `cancel` as one step a job sees the flag only if it was asked to stop: if `cancel` insists on the job in the slot, or no thread fails to start |
| Jobs.CancelStraysIff | src/mcu_updater/jobs.py:359-376 | in the code as it is exactly one step lets a cancellation hit a job it was not meant for: the flag being set while a job listens that nobody asked to stop |
| Jobs.CancelsAimedHit | src/mcu_updater/jobs.py:262-376 | in every run of the code without that step only jobs that were asked to stop see the flag |
| Jobs.CancelHitsAnother | src/mcu_updater/jobs.py:366-376 | as coded, from any state with a free slot, cancelling a job as it ends stops the next one |
| Jobs.CancelHitsAnotherStill | src/mcu_updater/jobs.py:345-352 | as one step it still can, after a thread that did not start |
| Jobs.CancelReachesItsJob | src/mcu_updater/jobs.py:366-376 | as coded, a cancellation confirmed while its job is submitted or running is seen by the job's next look, whatever happens in between |
| Jobs.CancelIsLost | src/mcu_updater/jobs.py:273-278 | as coded, a confirmed cancellation can be erased by the submission it arrived in |
| Jobs.CancelIsLostIff | src/mcu_updater/jobs.py:273-278 | a flag that is set is gone when its job can look exactly if it was set before `submit` cleared it |
| LogRing.JobLog.Append | src/mcu_updater/jobs.py:91-98 | the line gets the next number, and the ring forgets its oldest line if it is full |
| LogRing.JobLog.LogSince | src/mcu_updater/jobs.py:105-121 | the loop serves exactly the lines from there on that are not forgotten, and says where they start |
| LogRing.JobLog.Tail | src/mcu_updater/jobs.py:127-136 | the last lines, as many as asked for and there are |
| LogRing.ServedIsExact | src/mcu_updater/jobs.py:105-121 | an answer reaches to the end, is as printed, and starts late exactly if lines were forgotten |
| LogStream.AddKeepsLines | src/mcu_updater/agent/events.py:101-138 | a line added is sent or pending, behind all earlier ones, with its own job, and as it was printed if it has at most 8192 characters, else as its first 8192 and the mark |
| LogStream.AddSendsIff | src/mcu_updater/agent/events.py:101-138 | adding a line sends what is pending exactly if it is of another job, or the line makes it 40 lines or 32768 bytes |
| LogStream.AddFits | src/mcu_updater/agent/events.py:101-117 | no batch is empty, has more than 40 lines, or is more than one line over its size |
| LogStream.LogBatcher.AddLine | src/mcu_updater/agent/events.py:101-117 | the fields end up as specified, and nothing that was added is lost, reordered, moved to another job, or changed but by cutting what is over 8192 characters |
| LogStream.LogBatcher.FlushLocked | src/mcu_updater/agent/events.py:123-138 | what is pending is sent as one batch |
| LogStream.LogBatcher.Flush | src/mcu_updater/agent/events.py:119-121 | after a flush nothing is pending, and all that was added has been sent |
| LogClient.EveryLineIsQueued | src/mcu_updater/agent/events.py:101-117 | a job that has handed on all its lines can print another one, and that goes to the batcher under its number |
| LogClient.LogNeverLies | src/mcu_updater/agent/events.py:123-138 | in every run, with batches and answers lost, repeated or late, the client shows the log up to some line, each as printed, or its first 8192 characters and the mark if it is longer, with marks only for forgotten lines |
| LogClient.AnswerFillsTheGap | src/mcu_updater/agent/methods.py:1104-1119 | asking from the end of the view completes it: all lines still there in full, and marks for exactly the places the answer reports |
| LogClient.NoLossNoGap | src/mcu_updater/agent/events.py:101-138 | in every run the batches of a job join up, so a client that loses none shows the lines of the job in the same way, without a gap, as far as they were sent, which after a flush is all of them |
| Transactions.ActFits | src/mcu_updater/config.py:262-326 | a process inside a transaction has the lock if it wanted it, has read what is in the file, and writes what its edit makes of it |
| Transactions.StepsInOrder | src/mcu_updater/config.py:262-326 | begin, load, change, open, fill, rename, leave, in that order and no other; breaking off is possible at any point and leaves the file as it was and the lock free |
| Transactions.SpoilsIff | src/mcu_updater/config.py:321-326 | with locked and unlocked writers alike, one step and no other takes the file away from what the committed edits give one after the other: a rename of something that is not what the edit makes of the file by then |
| Transactions.UnspoiledIsSerial | src/mcu_updater/config.py:262-326 | in every run without that step no committed edit is lost |
| Transactions.CourteousIsSerial | src/mcu_updater/cli.py:121-129 | any interleaving of transactions, with the lock or without, with exceptions and crashes anywhere, leaves the file whole and serial, if those without it begin alone and the others while none of those is on |
| Transactions.NoEditIsLost | src/mcu_updater/config.py:262-326 | any interleaving of locked transactions, with exceptions and crashes anywhere, leaves the file whole, and saying what the committed edits give one after the other |
| Transactions.EditIsLost | src/mcu_updater/cli.py:121-129 | with one writer outside the lock the other's committed edit leaves no trace, whatever the edits are; it is serial only if the one would erase the other anyway |
| Transactions.FileIsTorn | src/mcu_updater/config.py:323-326 | with one writer outside the lock a committed transaction can leave half a file |
| Kconfig.HasVisibleChild | src/mcu_updater/kconfig.py:194-200 | the loop finds out whether some child is visible |
| Kconfig.Collect | src/mcu_updater/kconfig.py:406-422 | the collecting loop appends exactly the specified rows |
| Kconfig.VisibleIff | src/mcu_updater/kconfig.py:179-200 | a node is visible exactly if some way leads down from it through symbols and choices with prompts whose conditions are met, to a node that is no symbol or choice, or is selectable |
| Kconfig.SymbolHasOneRow | src/mcu_updater/kconfig.py:179-226 | a selectable symbol whose prompt condition is met, and those of all above it, with no choice above it, has exactly one row on exactly one screen |
| Kconfig.ListedIff | src/mcu_updater/kconfig.py:406-422 | a node is listed exactly if it is visible and everything above it, up to the screen, is visible and flattened |
| Kconfig.RowsIff | src/mcu_updater/kconfig.py:406-422 | a row is on a screen exactly if its node is listed there, at that depth |
| Kconfig.RowsOnce | src/mcu_updater/kconfig.py:406-422 | no node has two rows on a screen |
| Kconfig.RowsInOrder | src/mcu_updater/kconfig.py:406-422 | the rows of a screen stand in the order of the tree |
| Kconfig.AncestorHasChildren | src/mcu_updater/kconfig.py:202-226 | a node on the way to a node is a choice, or enterable, or flattened, and only one of these |
| Kconfig.ScreensCover | src/mcu_updater/kconfig.py:390-422 | every node in sight has exactly one row on exactly one screen, that of its nearest enterable ancestor, indented by the ancestors in between |
| Kconfig.ScreensDoNotOverlap | src/mcu_updater/kconfig.py:202-226 | no node in sight is on two screens or at two depths |
| Kconfig.OnlyInSight | src/mcu_updater/kconfig.py:390-422 | a screen in sight shows only nodes in sight |
| KconfigSessions.Anchored | src/mcu_updater/kconfig.py:579-587 | the way that is kept ends in something visible or at the top, and drops nothing it need not |
| KconfigSessions.KconfigSession.Reanchor | src/mcu_updater/kconfig.py:579-587 | the loop keeps the specified way |
| KconfigSessions.SessionStore.Reap | src/mcu_updater/kconfig.py:835-837 | exactly the sessions go that nobody touched for more than half an hour |
| KconfigSessions.ReapedInOrder | src/mcu_updater/kconfig.py:835-837 | those that stay keep their order |
| KconfigSessions.SessionStore.Open | src/mcu_updater/kconfig.py:839-851 | never more than four sessions, with ids of their own; which one made room, also if the new one then fails to open |
| KconfigSessions.UnsavedGoLast | src/mcu_updater/kconfig.py:842-846 | unsaved edits make room only if all live sessions have some, and then the oldest |
| KconfigSessions.SaveKeepsAnswers | src/mcu_updater/kconfig.py:754-788 | a crash at any moment of a save leaves the old answers whole in one file, or the new ones in place |
| KconfigSessions.SaveForgetsForAMoment | src/mcu_updater/kconfig.py:776-784 | after exactly one step of a save the type reads as never configured |
| MakefilePatches.SourceTree.Apply | src/mcu_updater/build.py:257-288 | the patching loop leaves tree and backups as specified, also if a write fails in the middle |
| MakefilePatches.PatchAddsItsLine | src/mcu_updater/build.py:269-288 | a file that has the line of a patch already stays as it is, any other gets it at its end, as a line of its own, and no other file is touched |
| MakefilePatches.SourceTree.Restore | src/mcu_updater/build.py:290-300 | the restoring loop puts back as specified |
| MakefilePatches.SourceTree.Around | src/mcu_updater/build.py:240-300 | patch, build and restore leave the tree as it was exactly if no two patches append to one file |
| MakefilePatches.FirstSavedIsOriginal | src/mcu_updater/build.py:269-282 | the first thing saved of a file is the file as it was |
| MakefilePatches.ForwardOrderRestores | src/mcu_updater/build.py:289-300 | in the code's order every file is as before, whatever the build did to the patched files, exactly if no two patches find the same file without their line when their turn comes |
| MakefilePatches.ReverseOrderRestores | src/mcu_updater/build.py:289-300 | in the opposite order every file always is |
| MakefilePatches.SavedOnceIff | src/mcu_updater/build.py:269-282 | a file is saved twice exactly if two patches append to it |
| MakefilePatches.DistinctFilesRestored | src/mcu_updater/build.py:257-300 | patches for different files are always undone |
| MakefilePatches.TwoPatchesLeaveTheFirst | src/mcu_updater/build.py:290-296 | with two patches for one file the first line stays |
| Framing.Reader.Unframe | src/mcu_updater/agent/rpc.py:61-75 | the loop takes out exactly the complete messages and leaves the rest |
| Framing.Reader.ReadLoop | src/mcu_updater/agent/rpc.py:224-239 | however the bytes arrive in chunks, the messages are those of the whole stream |
| Framing.MessagesConcat | src/mcu_updater/agent/rpc.py:61-75 | reading in two parts, the rest of the first before the second, is reading the whole |
| Framing.FramesReadBack | src/mcu_updater/agent/rpc.py:56-75 | messages without the byte 3, each sent with that byte behind it, are read back in order if they are more than white space, with the beginning of the next kept |
| Framing.ReadFramed | src/mcu_updater/agent/rpc.py:56-75 | every way to cut such a stream into chunks delivers exactly those messages |
| Rpc.SettledAtMostOnce | src/mcu_updater/agent/rpc.py:190-350 | however answers, timeouts and lost connections race, no future is settled twice |
| Rpc.ValueStays | src/mcu_updater/agent/rpc.py:319-350 | a future that was settled keeps its value |
| Rpc.CallBegins | src/mcu_updater/agent/rpc.py:184-196 | a new call waits without a value, and enters the table of pending calls once |
| Rpc.AnswerArrives | src/mcu_updater/agent/rpc.py:319-341 | an answer that arrives while its call is in the table is what the call gets, whatever else happens, once it is handed over, and until then it can be; any other changes nothing |
| Rpc.NothingIsInvented | src/mcu_updater/agent/rpc.py:319-350 | in every run a call gets only what the peer sent for it, or the loss of the connection |
| Rpc.WaitEnds | src/mcu_updater/agent/rpc.py:198-213 | a caller that waits ends with the value if there is one and by timing out if there is none; a call given up while in the table never gets a value |
| Rpc.DoneWaiting | src/mcu_updater/agent/rpc.py:198-213 | a caller that is done stays so |
| Rpc.NobodyIsForgotten | src/mcu_updater/agent/rpc.py:343-350 | after the table of pending calls was swapped, and whatever else happens, every call that was pending is failed once it is dealt with, in whatever order, and until then can be |
| Rpc.OneResponsePerRequest | src/mcu_updater/agent/rpc.py:245-317 | per id there are as many responses as requests for which encoding and sending went well, so never more than one each |
| Rpc.ResponsesAreTrue | src/mcu_updater/agent/rpc.py:253-317 | a response is for a request, and says that all went well exactly if a worker took that request and its handler returned |
| Rpc.UnencodableResultIsNotAnswered | src/mcu_updater/agent/rpc.py:304-308 | a result that cannot be encoded is never answered |
| Dfu.HexReads | src/mcu_updater/devices.py:224 | a number printed in enough hexadecimal digits reads back |
| Dfu.DigitsAre | src/mcu_updater/devices.py:224 | each hexadecimal digit, small or capital, stands for its number, and is printed as a capital |
| Dfu.DfuSerialReads | src/mcu_updater/devices.py:214-224 | for 24 hexadecimal digits the first eight characters of the answer say the sum modulo 2^32 of the outer words, and the last four the upper half of the middle word, each word read low byte first |
| Dfu.SameBoard | src/mcu_updater/devices.py:197-201 | the documented board and the serial it shows in DFU mode |
| Dfu.FromHexReads | src/mcu_updater/devices.py:217-220 | blanks between two bytes are skipped, none within a byte, and anything else cannot be decoded |
| Dfu.DfuSerialIff | src/mcu_updater/devices.py:214-220 | a serial has a DFU form exactly if 24 characters stand before its first dash, or are all of it, and can be decoded; without blanks among them, if they are hexadecimal digits |
| Dfu.SameDfuSerial | src/mcu_updater/devices.py:221-224 | two ids share a DFU serial exactly if outer words agree in sum modulo 2^32 and middle words in their upper halves |
| Dfu.SwapCollides | src/mcu_updater/devices.py:221-224 | an id and itself with outer words exchanged always share one |
| Adoption.Agent.Record | src/mcu_updater/pairings.py:66-77 | the pairing replaces an older one for the same serial |
| Adoption.InstallIsRecorded | src/mcu_updater/pairings.py:66-77 | an install is recorded under the serial the board showed, with its time, unless it showed none |
| Adoption.Agent.AdoptPaired | src/mcu_updater/agent/methods.py:1508-1580 | the pass over the bus leaves registry and pairings as specified, and what it reports is tracked |
| Adoption.AdoptionIsExact | src/mcu_updater/agent/methods.py:1508-1580 | after a pass a serial is tracked exactly if it was before, or its board was in its bootloader, tracked by nobody, the only such board with its DFU serial, and paired with an existing type no more than a day ago |
| Adoption.AddedAtTheEnd | src/mcu_updater/agent/methods.py:1560-1563 | serials are added behind those a type had |
| Adoption.PairingsLeft | src/mcu_updater/agent/methods.py:1565-1580 | after a pass a pairing is there exactly if it was before, is no more than a day old, and let no board in |
| Adoption.NeverAGuess | src/mcu_updater/agent/methods.py:1544-1554 | of two untracked boards that share a DFU serial neither is adopted |
| Adoption.AddedExclusiveIff | src/mcu_updater/cli.py:121-129 | adding a serial keeps every serial under one type exactly if the other types are looked at, as by the agent and not by the command line, or none of them has it |
| Adoption.ClashesIff | src/mcu_updater/agent/methods.py:588-630 | of whole edits and passes, crashed ones included, exactly one kind puts a serial under two types: the command line adding one that another type has |
| Adoption.NoBoardTwice | src/mcu_updater/agent/methods.py:588-630 | in every sequence of whole edits and passes without that kind no serial is ever under two types |
| Adoption.PassInPieces | src/mcu_updater/agent/methods.py:1538-1580 | a pass whose look and edits have nothing in between is the whole pass |
| Adoption.AdoptOneExclusiveIff | src/mcu_updater/agent/methods.py:1558-1564 | one edit of a pass keeps every serial under one type exactly if no other type has its serial by then |
| Adoption.BoardTwiceIff | src/mcu_updater/agent/methods.py:1538-1569 | of all steps of passes and edits, in between each other, exactly two put a serial under two types: the pass's edit for a serial that another type has by then, and the command line's |
| Adoption.NoBoardTwiceInBetween | src/mcu_updater/agent/methods.py:1508-1580 | in every run in which edits come between a pass's look and its edits, none adds a serial the pass has seen and not come to, and the command line none that another type has, no serial is ever under two types |
| Adoption.CrashUnusedIff | src/mcu_updater/agent/methods.py:1560-1569 | a crash after some device of a pass leaves a pairing that was used exactly if that device was adopted |
| Adoption.LeavesUsedIff | src/mcu_updater/agent/methods.py:1560-1569 | of all edits and passes exactly that crash leaves a pairing that was used |
| Adoption.PairingActsOnce | src/mcu_updater/pairings.py:90-94 | in every run without such a crash no pairing is acted upon twice |
| Adoption.EditedInBetween | src/mcu_updater/agent/methods.py:1560-1563 | a serial added between the look at the registry and the edit ends up under two types |
| Adoption.CrashLeavesPairing | src/mcu_updater/agent/methods.py:1560-1569 | a crash between edit and forgetting leaves the board tracked and its pairing, though used, in place |
| Adoption.PairingActsTwice | src/mcu_updater/agent/methods.py:1560-1569 | after such a crash, on any bus and at any time the pairing is live, the next board alone with its DFU serial is adopted |
| Adoption.AnyPairingCanActTwice | src/mcu_updater/agent/methods.py:1560-1569 | for every id with different outer words there is such a second board, at any time within the life of the pairing |

## Left out

- Section and option objects are values in a sequence here; that two names can refer to the same
  object in the original (`sec.options`, `current_option`) is not captured. Dictionaries are
  sequences in insertion order.
- Whitespace is blank and tab, and the line feed ends a line; other line separators, Unicode
  blanks and byte order marks do not occur.
- CfgDocuments.CfgDocument.Set: the value is text or a list of texts; turning other values into text
  happens outside. Keys that would not read back as keys (with a colon or an equals sign, or opening
  with a comment character or a bracket) and items with line feeds are not given to it; the keys of
  the original's callers are all plain words.
- RegistryFile.RegistryObject.Save: names have headers that read back, as all names do that are
  loaded or let through; serials and patches are of one line. A serial with a line feed, which
  nothing in the original refuses, would be printed as two lines.
- RegistryFile.RegistryObject.SaveType: the same.
- SavedLines.SaveKeepsLines: the same.
- CfgLayout.LinePrinted: for an old line with an equals sign behind its colon it says nothing; there the
  comment is what `SingleIdempotent` is about.
- RegistryLaws.RegistryRoundTrip: values are ones the format can hold, as `CleanType` says: trimmed,
  and without a comment character behind a blank. Other values are not considered.
- RegistryFile.FileRoundTrip: the same.
- Files, directories and their errors are one step that works or not; clocks are a number that
  only grows, and a timeout is a choice of the environment. Subprocesses, sudo, systemd and
  Moonraker are outcomes: took effect or not, raised or not.
- Registry files at an old location are refused before anything is read; this is not modelled.
- The JSON views of the registry and of settings, and the settings' defaults for the number of
  jobs, only copy fields.
- Service: the dry-run backend, the check that the printer is idle, waiting for Klipper to be ready
  after a batch, and `ExecStopPost` of the service unit. The state machine has the code's steps in
  its order; an exception inside a start counts as a start that was tried.
- Lock: who is named in a `BusyError` is best effort in the code too, and left out. A half-written
  record reads as none. On Windows there is no kernel lock.
- Jobs: what a job returns, its progress, and the notifications. A thread that starts although
  `start` raises is not considered.
- LogRing: `LogSince` is one step; the code reads the number of dropped lines after the snapshot,
  which matters only for a ring of size 0.
- Transactions: a file that is renamed while another process has it open for writing goes on being
  written under its new name; the model stops such a writer instead.
- Kconfig: the tree is given; evaluating expressions, assigning values, ranges, search and the
  differences between two states belong to kconfiglib or only read. Two nodes with one id are told
  apart by their place here, where the code takes the first.
- KconfigSessions: the lock of each session, and the time a parse takes.
- MakefilePatches: files are texts, not bytes in UTF-8; a file is named by where it really is, so two
  spellings of one path are one file. A dry run changes nothing. Restoring is taken to work.
- Framing: JSON is any encoding without the byte 3 (section 7 of RFC 8259 has control characters
  escaped).
- Rpc: a request is answered or not; sections 4 and 5 of the JSON-RPC 2.0 Specification also say what
  is in the answer. Batches of requests are not used.
- Adoption: a pairing file that is not as written by this tool counts as empty.
- The command line and the menus, displays, PlatformIO, version comparison, USB topology, the
  migration of old layouts, and the filters of the bulk operations.
