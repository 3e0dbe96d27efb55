# Xorn and gaf: a verified model

Xorn stores electronic schematics as immutable revisions of objects; gaf reads
and writes them.  This project models the parts of the two in which state,
sharing or text formats are intricate, and proves what they are for.

* **The revision store** (`src/storage`).  Revisions are heap objects with three
  maps: objects to shared, reference-counted states, objects to ordered lists
  of attached objects, and objects to the object they are attached to.
  `ObjectData` has the object types, their validity and normalization; `Forest`
  the meaning of the three maps as a value, and its operations; `Storage` the
  library with its reference counts; `Revisions`, `Manipulate`, `Relocating`,
  `Deleting`, `Copying` and `CopySelection` the operations which change
  revisions, with the undoing of half-done changes after a failed allocation;
  `Cursors`, `Objects`, `Differences`, `Attributes` and `SettingAttributes` the
  merge loops over sorted maps and selections; `Session` arbitrary sequences of calls on
  any number of revisions.  `Validity`, `ErrorCodes` and `Changes` say what validity,
  normalization, errors and elementary changes mean for each field, object and list.
* **The gEDA file format** (`src/gaf/plainformat.py`, `plainwrite.py`,
  `plainread.py`).  `PlainFormat` and `PlainText` have the placement of symbols
  and the fields of a line; `PlainWrite`, `PlainRead` and `PlainReadFile` the
  printer and the parser with its stack of contexts; `PlainObjects`,
  `PlainReturn` and `PlainRoundTrip` prove that what has been written is read
  back.  `PlainReadable` proves what can be read from a file at all, whatever it
  looks like, by means of a measure which reading can't increase (`PlainWeights`);
  `PlainExact` joins both directions to the exact condition for the round trip.
  `Unwritable` shows what becomes of names and texts which don't fit, `PlainVersions`
  which objects look different in files with other version numbers, `PlainTolerance`,
  `PlainStray` and `PlainMalformed` how files are read which haven't been written by the
  program, and `PlainSamples` what the lines of a file look like.  `PlainGeometry` has
  the meaning of placements for what is drawn, and `PlacingRevisions` moves the objects
  in the store.
* **Number and data formats** (`src/python`).  `Base64`, `Base64Decoding`,
  `Base64RoundTrip`, `Base64Canonical` and `Base64Values`; `FixedNum`; `HybridNum` and
  `HybridStrings` over bit lists (`Bits`); `NumberForms` has the strings which are
  numbers.
* **The XML writer** (`src/python/xml_writer.py`).  `XmlWriter` has the writer,
  `XmlReader` an independent definition of what a document means, read one
  character at a time, `XmlTree` the tree it consists of, `XmlReadable` what can
  be read at all, `XmlMeaning` the proof that both agree, `XmlPreserved` what
  is read from an element which preserves white space, and `XmlLayout` how the text of
  a tree is laid out.
* **The parts list** (`src/backend`).  `PartsList` with `Alphabetical`,
  `MultikeySort`, `CaseVariants` and `PartsCount`.

Code which changes things in place is modelled by classes and methods which are
proved against functions on values; what the code promises is then proved about
these functions.  A Boolean choice (`if *`) stands for an allocation which may
fail.  Numbers are exact integers and fractions.  `hide` in a proof only keeps
definitions from the solver.

Where the code doesn't do what it is for on all inputs, a lemma has a concrete
input for which it doesn't, and another one the exact condition:

* `untransform` restores the start angle of an arc only if it is at least 0 and
  less than 360 (`PlainFormat.FullTurnIsLost`, `PlainFormat.UntransformRestoresExactlyIf`).
* Placing something twice isn't the same as placing it once for a text which is
  turned by a quarter and then mirrored (`PlainFormat.TurnedThenMirrored`,
  `PlainFormat.TransformIsAction`).
* A schematic isn't read as it has been written if an embedded arc has a start
  angle outside of that range, if an attribute is both attached to and inherited
  by an embedded component with different visibility, if a symbol embedded in an
  embedded symbol has got contents which don't look the same where they are placed,
  if the contents of an embedded symbol are missing (`PlainRoundTrip.StartAngleIsReduced`,
  `PlainRoundTrip.InheritedAttributeIsUnhidden`, `PlainRoundTrip.NestedSymbolIsTurned`,
  `PlainRoundTrip.MissingContentsAreFilled`), if a pixmap has no file name, an empty one,
  or one with a line feed, if the name of a symbol contains white space or looks as
  if the symbol were embedded, or if a line of a text, path or file name ends with a
  carriage return (`PlainExact.PixmapNamesAreLost`, `PlainExact.SymbolNamesAreLost`,
  `PlainExact.ReturnIsLost`).  All other schematics are
  (`PlainExact.RoundTripExactlyIf`).  Symbols and pixmaps which aren't embedded
  must be those which are loaded for their names.
* Encoded data isn't read back if the delimiter contains a line feed, so that it
  isn't found, or if some line of the data equals the delimiter, so that reading
  stops there (`Base64Canonical.NewlineAsDelimiter`, `Base64Canonical.DataAsDelimiter`);
  in all other cases it is (`Base64Canonical.RoundTripExactlyIf`).
* The XML writer accepts names which begin with a combining character, because
  it compares characters with integers (`src/python/xml_writer.py:37-39`), as
  well as control characters; such a document isn't well-formed.  It also accepts
  carriage returns and, in attribute values, tabs, although it is documented that
  these may be passed (`src/python/xml_writer.py:93-95`); they are read as line
  feeds and spaces (`XmlMeaning.CombiningNameCannotBeRead`,
  `XmlMeaning.ControlCannotBeRead`, `XmlMeaning.TabAndReturnCannotBeRead`).  All
  other documents are read as they have been written (`XmlMeaning.DocumentExactlyIf`).
* Sorting by several columns doesn't give the order by all columns if some key
  column permits values which differ only in case while a later one permits
  different values (`CaseVariants.VariantsBreakOrder`, `CaseVariants.OrderedExactlyIf`),
  and the quantities in the parts list are wrong for some table without repeated
  designators if and only if a column of the parts permits values which differ only
  in case, unless there are fewer than three designators (`PartsCount.PartVanishes`,
  `PartsCount.QuantitiesExactlyIf`).
* Objects whose data are the same are reported as modified if they have been set
  again (`Differences.RewriteObject`); what is reported is right if and only if no
  object has different states with the same data (`Differences.ModifiedIsChangedExactlyIf`).

## Model

| member | source | states |
|---|---|---|
| ObjectData.NormalizeMakesStorable | src/storage/obstate.cc:73-148 | normalizing valid data keeps it valid, is idempotent on the result, and doesn't change which objects may be attached where |
| Validity.NormalizeKeepsUsed | src/storage/obstate.cc:73-92 | a mesh keeps both hatches, a hatch one, and other fillings none; dashes keep their length and dots their space; all other fields of all objects are unchanged |
| Validity.StorableExactlyIf | src/storage/obstate.cc:73-148 | data is stored as it is if and only if it is valid and nothing is set which its styles don't use |
| Validity.LineRanges | src/storage/validate.cc:49-56 | the permitted values of each field of a line style |
| Validity.FillRanges | src/storage/validate.cc:58-64 | the permitted values of each field of a fill style |
| Validity.TextRanges | src/storage/validate.cc:141-151 | the permitted values of each field of a text |
| Validity.NetRanges | src/storage/validate.cc:113-124 | the permitted values of each field of a net; only pins can be inverted |
| Validity.ShapeRanges | src/storage/validate.cc:69-131 | shapes are valid if and only if their color, styles and radius are |
| Validity.PlacedRanges | src/storage/validate.cc:96-140 | components and pictures are valid if and only if they are turned by a multiple of a quarter less than a full turn |
| Forest.OccursOnce | src/storage/manipulate.cc:222-260 | each object occurs exactly once in all child lists together, namely in the list of the object it is attached to |
| Forest.DepthTwo | src/storage/manipulate.cc:337-366 | the structure is at most two levels deep, so there are no cycles |
| Forest.KidsAreChildren | src/storage/internal.h:25-55 | the child lists and the parent map are inverse to each other, without repetitions |
| Forest.PutKeepsForest | src/storage/manipulate.cc:67-130 | adding an object at the end of a permitted list keeps the forest invariant |
| Forest.SetKeepsForest | src/storage/manipulate.cc:185-325 | setting data which doesn't invalidate existing attachments keeps the forest invariant |
| Changes.PutAppends | src/storage/manipulate.cc:104-113 | a new object is the last one in its list, and nothing else changes |
| Changes.SetReplaces | src/storage/manipulate.cc:243-272 | setting an existing object changes nothing but its state; a new one becomes the last one at the top level |
| Changes.DeleteRemoves | src/storage/manipulate.cc:411-471 | exactly the object and those attached to it are gone; all others keep their states and places |
| Changes.RelocateAttaches | src/storage/manipulate.cc:368-408 | the object is attached to its new place, and no state and no other object changes |
| Forest.RelocateKeepsForest | src/storage/manipulate.cc:327-408 | relocation under the type rules keeps the forest invariant |
| Forest.RelocateKeepsOrder | src/storage/manipulate.cc:368-408 | all other objects keep their relative order, and only the two lists involved change |
| Forest.RelocatePlaces | src/storage/manipulate.cc:368-408 | the object ends up immediately before the given sibling, or last |
| Forest.DeleteKeepsForest | src/storage/manipulate.cc:411-471 | deleting an object with the objects attached to it keeps the forest invariant |
| Forest.DeleteKeepsList | src/storage/manipulate.cc:411-471 | deletion only takes the object out of the list it was in, and empties the lists of deleted objects |
| Storage.Library.RefcountIsExact | src/storage/obstate.cc:171-180 | the reference count of a state is exactly the number of pairs of a living revision and an object which have this state, and a state is allocated if and only if there is such a pair |
| Storage.Library.IncRefcnt | src/storage/obstate.cc:171-174 | counting a reference keeps counts and holders in balance |
| Storage.Library.DecRefcnt | src/storage/obstate.cc:176-180 | giving up a reference keeps the balance; at most this state is deallocated, and only if it was the last reference |
| Storage.Library.NewState | src/storage/obstate.cc:94-148 | a new state has normalized valid data and exactly one holder |
| Storage.Library.IncRefcnts | src/storage/revision.cc:24-31 | a reference is counted for each entry of an object map, also if several entries share a state |
| Storage.Library.DecRefcnts | src/storage/revision.cc:33-38 | a reference is given up for each entry of an object map, also if several entries share a state |
| Storage.Library.StaysValid | src/storage/internal.h:25-55 | the invariant of the library survives any operation which changes one revision and accounts for its references |
| Revisions.NewRevision | src/storage/revision.cc:56-74 | an empty transient revision, or no change at all |
| Revisions.CopyRevision | src/storage/revision.cc:24-31 | a transient revision with the same objects, order and states, sharing all states; the source is unchanged |
| Revisions.FinalizeRevision | src/storage/revision.cc:91-94 | finalizing changes nothing but the flag |
| Revisions.FreeRevision | src/storage/revision.cc:33-38 | states are deallocated exactly as the invariant of the library demands, never those still in use |
| Manipulate.SetState | src/storage/manipulate.cc:24-37 | the new state is stored normalized and the reference to the previous one given up, or nothing changes |
| Manipulate.AddObject | src/storage/manipulate.cc:67-130 | on success, one object with an unused id at the end of the top level; every documented error; no observable change on error, including failed allocations |
| Manipulate.SetObjectData | src/storage/manipulate.cc:185-325 | exactly the documented errors; on success the object has the data and, if it is new, is last at the top level; no observable change on error |
| ErrorCodes.AddErrorExactlyIf | src/storage/manipulate.cc:71-102 | when adding an object succeeds, and each error in exactly its case |
| ErrorCodes.SetErrorExactlyIf | src/storage/manipulate.cc:189-241 | setting an object succeeds if and only if the data is valid, only nets and components keep attached objects, and only texts stay attached; each error in exactly its case |
| ErrorCodes.RelocateErrorExactlyIf | src/storage/manipulate.cc:331-395 | in any revision, relocating succeeds if and only if the object exists, it is put to the top level or is a text and is attached to an existing net or component, and the object before which it is inserted is there; each error in exactly its case |
| Relocating.InsertThenRemoveMoves | src/storage/manipulate.cc:368-408 | the index arithmetic of inserting before removing in the same list amounts to moving; moving an object before itself changes nothing |
| Relocating.MoveIsRelocate | src/storage/manipulate.cc:368-408 | for one or two lists, the insertion and the removal together have the effect of a relocation |
| Relocating.RelocateObject | src/storage/manipulate.cc:327-408 | exactly the documented errors; on success the lists of a relocation; the identity if the object is to be inserted before itself; no observable change on error |
| Cursors.MergeMeets | src/storage/selection.cc:246-261 | when the two iterators meet, exactly one more common key has been visited, in ascending order |
| Cursors.MergeSkipsKey | src/storage/selection.cc:246-261 | skipping a smaller key of the map skips nothing common |
| Cursors.MergeSkipsSelected | src/storage/selection.cc:246-261 | skipping a smaller selected object skips nothing common |
| Cursors.MergeEnds | src/storage/selection.cc:246-261 | at the end of either sequence, exactly the common keys have been visited |
| Deleting.DeleteObjectButLeaveEntry | src/storage/manipulate.cc:411-446 | removes the object and all objects attached to it, releasing all their states, and nothing else |
| Deleting.DeleteObject | src/storage/manipulate.cc:448-471 | exactly the documented errors; on success, the revision without the object and those attached to it |
| Deleting.DeleteSelectedObjects | src/storage/manipulate.cc:487-501 | all selected objects are gone with the objects attached to them, whether or not the latter are selected, and all others keep data and order; selected ids which don't exist, or which are null, are ignored |
| Deleting.PruneOneMore | src/storage/manipulate.cc:487-501 | deleting one more selected object, which may already be gone, extends what has been deleted by it and its attached objects |
| Copying.InsertShared | src/storage/manipulate.cc:508-523 | a copy shares the state of its source, or all changes are undone |
| Copying.DeleteExtends | src/storage/manipulate.cc:588-595 | taking back an object which has been added restores what was there before, as far as it can be observed |
| Copying.DeleteUndoesPut | src/storage/manipulate.cc:524-529 | deletion undoes putting an object at the end of a list |
| Copying.CopyTree | src/storage/manipulate.cc:503-541 | copies an object and the objects attached to it, in order, with consecutive new ids; all new objects are remembered so that they can be deleted |
| Copying.RollBack | src/storage/manipulate.cc:588-595 | deleting all objects copied so far restores the destination as far as it can be observed |
| Copying.CopyObject | src/storage/manipulate.cc:565-596 | exactly the documented errors; on success one copy at the end of the top level; no observable change on error; the destination may be the source |
| CopySelection.CopyAllIsFaithful | src/storage/manipulate.cc:622-670 | each selected object gets a copy with the same state and copies of the attached objects in the same order |
| CopySelection.CopyAllKeeps | src/storage/manipulate.cc:622-670 | copying keeps the forest invariant and all existing objects; new objects have unused consecutive ids |
| CopySelection.CopyAllLists | src/storage/manipulate.cc:622-670 | exactly the copies are appended to the top level; all other lists are unchanged |
| CopySelection.SourceMayGrow | src/storage/manipulate.cc:641-667 | copies which end up in the source itself while it is being iterated over aren't copied again |
| CopySelection.CopyCommon | src/storage/manipulate.cc:622-670 | the merge loop copies exactly the selected objects which exist, or leaves everything as it was |
| CopySelection.CopyObjects | src/storage/manipulate.cc:622-670 | returns exactly the copied roots; no observable change on error; also if the destination is the source |
| Objects.GetObjectLocation | src/storage/object.cc:93-111 | the unique list and index where the object is, or failure exactly if it doesn't exist |
| Objects.AllObjectsOnce | src/storage/object.cc:114-172 | each existing object is listed exactly once, so the list exactly fits into its buffer |
| Objects.AttachedObjectsFollow | src/storage/object.cc:114-147 | directly after a toplevel object come the objects attached to it |
| Objects.AllObjectsKeepsOrder | src/storage/object.cc:114-147 | objects attached to the same object are listed in their order |
| Objects.DumpChildren | src/storage/object.cc:114-147 | the recursion writes the listing in pre-order to the buffer, without writing past its end |
| Objects.GetObjects | src/storage/object.cc:149-172 | all objects in pre-order, exactly as many as there are object states; fails at most for lack of memory for a list which isn't empty |
| Objects.GetObjectsAttachedTo | src/storage/object.cc:176-212 | exactly the objects attached to an object, in order; fails if the object doesn't exist, and otherwise at most for lack of memory for a list which isn't empty |
| Differences.GetModifiedObjects | src/storage/object.cc:307-340 | in ascending order, exactly the objects which are in both revisions but don't have the same state; fails at most for lack of memory, and not if one revision is empty |
| Differences.NoDifference | src/storage/object.cc:246-340 | nothing is reported as added, removed or modified if and only if both revisions have the same objects with the same states |
| Differences.DifferentDataIsModified | src/storage/object.cc:319-335 | an object whose type or data differ is always reported as modified |
| Differences.SettingIsModification | src/storage/object.cc:319-335 | setting an object to a new state makes it the only modified one |
| Differences.ModifiedIsChangedExactlyIf | src/storage/object.cc:295-335 | all objects whose data differ are reported, and exactly these if and only if no object has different states with the same data |
| Differences.SetsAreReported | src/storage/object.cc:295-335 | after any sequence of settings, exactly the objects which have been set are reported; these have other data if and only if none has been set to its original data last |
| Differences.RewriteObject | src/storage/object.cc:295-335 | a revision for which an object is reported although its data are the same |
| Differences.SetAgain | src/storage/object.cc:319-335 | in any revision, setting an object to the data it has makes it the only reported object although nothing has changed |
| Differences.ModifiedFit | src/storage/object.cc:307-318 | the modified objects always fit into the buffer, whose size is the smaller number of objects |
| Objects.SelectionIsEmpty | src/storage/selection.cc:246-261 | whether no selected object exists in the revision |
| Attributes.WithStores | src/storage/attributes.cc:102-121 | an attribute can be written exactly if it can be read, is then read as written, and writing the previous value undoes it |
| Attributes.WithStoresNothingElse | src/storage/attributes.cc:102-121 | writing an attribute doesn't change any other attribute of which it isn't a part |
| Changes.AngleIsField | src/storage/attributes.cc:129-136 | the angle of components, pictures and texts is the field of this name |
| Changes.PartsOfStyles | src/storage/attributes.cc:235-299 | parts of a line style are those of the whole style, for all objects which have one |
| Changes.MissingAttributes | src/storage/attributes.cc:123-445 | which types of objects don't have an attribute |
| Attributes.AppliesExactlyIf | src/storage/attributes.cc:551-576 | exactly when setting an attribute of an object is left out because the result would be invalid |
| Attributes.ReadAfterWrite | src/storage/attributes.cc:551-593 | after an attribute has been set, it is read as set, or as zero if normalization clears it |
| Attributes.ReadAfterWriteLine | src/storage/obstate.cc:73-79 | a line style is read as it has been normalized |
| Attributes.GetAttr | src/storage/attributes.cc:447-510 | the merge loop finds out whether no selected object has the attribute, all have the same value, or values differ |
| Attributes.SelectByAttr | src/storage/attributes.cc:614-662 | exactly the objects which have the attribute with this value |
| SettingAttributes.SetToKeepsForest | src/storage/attributes.cc:512-612 | setting attributes keeps the forest invariant since no object changes its type |
| SettingAttributes.ReadBack | src/storage/attributes.cc:512-612 | afterwards all selected objects have the value, if it was valid for all of them |
| SettingAttributes.CopyMap | src/storage/attributes.cc:522-532 | the local object map holds a reference of its own for each entry |
| SettingAttributes.Exchange | src/storage/attributes.cc:578-593 | a new state takes the place of the previous one in the local map, whose reference is given up |
| SettingAttributes.Discard | src/storage/attributes.cc:595-603 | if an allocation fails, all references of the local map are given up and everything is as before |
| SettingAttributes.SetLocally | src/storage/attributes.cc:534-603 | the merge loop gives new states to exactly the selected objects which have the attribute and stay valid |
| SettingAttributes.Adopt | src/storage/attributes.cc:605-612 | the references of the previous object map are given up and those of the local one passed on |
| SettingAttributes.SetAttr | src/storage/attributes.cc:512-612 | exactly the selected objects which have the attribute and stay valid get new states, and no other state changes, although it may be shared; no change on error |
| Session.Step | src/storage/manipulate.cc:67-670 | each permitted call keeps the invariant, is not observable in any other revision, and doesn't change a finalized revision |
| Session.Run | src/storage/revision.cc:56-106 | after any sequence of calls, a revision which hasn't been operated on, or has been finalized, is as before |
| Session.RunFromScratch | src/storage/obstate.cc:171-180 | whatever calls are made, each allocated state is counted once for each object of a living revision which has it, no unused state is allocated, all stored data is valid and normalized, and all revisions are forests |
| PlainFormat.UntransformUndoes | src/gaf/plainformat.py:85-285 | each of the two functions undoes the other for all types, offsets, angles and both mirror flags, apart from full turns of arcs |
| PlainFormat.UntransformRestoresExactlyIf | src/gaf/plainformat.py:234-241 | the identical data is restored if and only if the start angle of an arc is at least 0 and less than 360 |
| PlainFormat.UntransformUndoesText | src/gaf/plainformat.py:174-183 | the alignment of a mirrored text is restored although it depends on the original angle |
| PlainFormat.TransformKeepsStorable | src/gaf/plainformat.py:85-183 | transformed data is valid and normalized if the original data is |
| PlainFormat.ComposeComposes | src/gaf/plainformat.py:89-107 | placements compose: each point is placed by the composition as by one placement after the other |
| PlainFormat.ComponentIsComposed | src/gaf/plainformat.py:147-154 | the new placement of a component denotes the composition of the outer placement with its old one, on every point |
| PlainFormat.EndpointsAreMapped | src/gaf/plainformat.py:155-162 | both ends of lines and nets are mapped to their images |
| PlainFormat.RectIsMapped | src/gaf/plainformat.py:109-127 | the rotated rectangle consists of exactly the images of the points of the rectangle |
| PlainGeometry.PlaceTurns | src/gaf/plainformat.py:85-107 | a point is mirrored at the vertical axis, turned counterclockwise by quarters and moved, in this order |
| PlainGeometry.StartIsMapped | src/gaf/plainformat.py:132-140 | any angle of an arc is taken from the image of its quarter direction on, clockwise in a mirror |
| PlainGeometry.ArcEndIsMapped | src/gaf/plainformat.py:132-140 | the end of a placed arc is where its end would be placed |
| PlainGeometry.TextIsMapped | src/gaf/plainformat.py:174-183 | for all alignments and angles, a placed text is on the side of its position to which its old side is mapped, and it is turned but never mirrored |
| PlainGeometry.PictureIsMapped | src/gaf/plainformat.py:165-173 | a picture fills the image of its area and is turned and mirrored in the same way |
| PlainGeometry.RestIsKept | src/gaf/plainformat.py:127-183 | no field but positions, sizes, angles, alignments and mirror flags changes, and nothing in a path |
| PlainFormat.TransformIsAction | src/gaf/plainformat.py:85-183 | transforming twice is transforming by the composition, if and only if it isn't a text turned by a quarter and then mirrored |
| PlainFormat.TurnedThenMirrored | src/gaf/plainformat.py:174-183 | a text and two placements for which this fails |
| PlainFormat.FullTurnIsLost | src/gaf/plainformat.py:241 | an arc starting at 400 degrees starts at 40 degrees after being transformed and untransformed |
| PlainFormat.TransformByNothing | src/gaf/plainformat.py:85-183 | the neutral placement changes nothing but full turns of arcs |
| PlacingRevisions.MovingBackRestores | src/gaf/plainformat.py:187-285 | transforming and untransforming a revision restores the data of all objects, up to full turns of arcs, and their structure |
| PlacingRevisions.TransformObjects | src/gaf/plainformat.py:129-183 | every object of the revision is transformed exactly once, in place, and no other revision changes |
| PlacingRevisions.UntransformObjects | src/gaf/plainformat.py:231-285 | every object of the revision is transformed back exactly once, in place, and no other revision changes |
| Streams.SplitRestoresLines | src/gaf/plainread.py:199-201 | reading a text line by line gives the lines it has been made of |
| PlainTolerance.SpacesExactlyIf | src/gaf/plainread.py:134-136 | the characters which separate fields |
| PlainTolerance.IntegersExactlyIf | src/gaf/plainread.py:96-103 | a field is an integer if and only if it consists of an optional sign and digits |
| PlainTolerance.WordsAreScanned | src/gaf/plainread.py:124-150 | a line of words is read by its first words, and not at all if there are too few |
| PlainTolerance.MoreFieldsAreIgnored | src/gaf/plainread.py:143-145 | excess fields are ignored |
| PlainTolerance.LeadingSpaceIsRefused | src/gaf/plainread.py:137-139 | a line with white space in front isn't read |
| PlainText.SplitJoined | src/gaf/plainread.py:134-136 | splitting words which have been joined by spaces restores them |
| PlainText.FieldReturns | src/gaf/plainread.py:91-109 | each kind of field is read as it has been written |
| PlainText.LineReturns | src/gaf/plainread.py:124-150 | a line of fields of the right kinds is read as it has been written |
| PlainLines.TextReturns | src/gaf/plainread.py:972-1045 | as many lines as have been counted make up exactly the text, whatever they look like |
| PlainLines.SplitComplete | src/gaf/plainread.py:199-201 | complete lines and what follows are split separately |
| PlainLines.NothingToStrip | src/gaf/plainread.py:154-159 | a text without carriage returns at line ends isn't changed |
| PlainWrite.WriteFile | src/gaf/plainwrite.py:55-58 | writes the header and the text of all toplevel objects in order |
| PlainWrite.WriteObject | src/gaf/plainwrite.py:167-309 | writes the line of the object, its payload, its placed symbol in brackets, and the texts attached to it in braces |
| PlainWrite.WriteEmbedded | src/gaf/plainwrite.py:245-252 | the contents of an embedded symbol are written as they have been placed, recursively |
| PlainWrite.WritePixmap | src/gaf/plainwrite.py:285-298 | the file name and, if embedded, the encoded data with its delimiter |
| PlainReadFile.ReadFile | src/gaf/plainread.py:177-369 | the loop with its stack of contexts computes the contents of the file, including all error cases |
| PlainReadFile.ReadItemFrom | src/gaf/plainread.py:199-338 | one item is processed as specified, consuming exactly the lines which belong to it |
| PlainReadFile.ReadAttributesFrom | src/gaf/plainread.py:248-279 | the attribute list is attached to the last object, or the documented errors are counted |
| PlainReadFile.ReadObjectFrom | src/gaf/plainread.py:204-247 | the object of each type is read from its first line and the lines which follow |
| PlainReadFile.ReadPictureFrom | src/gaf/plainread.py:843-908 | a picture is read with its file name and embedded data, or the errors are counted |
| PlainReadFile.ReadPathFrom | src/gaf/plainread.py:781-841 | a path is read with as many lines as it announces |
| PlainReadFile.ReadTextFrom | src/gaf/plainread.py:972-1045 | a text is read with as many lines as it announces |
| PlainReadFile.Visibilities | src/gaf/plainread.py:355-359 | for each attribute name, the visibility of the last attached attribute of that name |
| PlainReadFile.UnhideInherited | src/gaf/plainread.py:360-364 | exactly the inherited attributes with the name of an attached one get its visibility |
| PlainReadFile.FinishReading | src/gaf/plainread.py:340-369 | all embedded symbols are put back to their places, missing ones are counted as errors |
| PlainSamples.SampleIsWritten | src/gaf/plainwrite.py:43-309 | the text of a whole file with a component, its embedded symbol and an attribute |
| PlainSamples.UnusedLineFields | src/gaf/plainwrite.py:62-79 | fields which the dash style doesn't use are written as -1, and all others as they are |
| PlainSamples.UnusedFillFields | src/gaf/plainwrite.py:81-97 | fields which the kind of filling doesn't use are written as -1, and all others as they are |
| PlainSamples.MeshedPath | src/gaf/plainwrite.py:266-272 | the first line of a path on two lines which is filled with a mesh |
| PlainSamples.InvertedBusPin | src/gaf/plainwrite.py:180-194 | the line of a pin whose active end is the second one |
| PlainSamples.JoinIsSpaced | src/gaf/plainwrite.py:167-301 | fields are separated by single spaces |
| PlainSamples.PixmapIsWritten | src/gaf/plainwrite.py:285-299 | the lines of an embedded pixmap are full with 72 characters, and the last one is a point |
| PlainTolerance.RepairsExactly | src/gaf/plainread.py:451-460 | values out of range are replaced by defaults, and all others kept |
| PlainTolerance.ObjectIsRepaired | src/gaf/plainread.py:423-1045 | whatever the lines of an object look like, its colors, angles, radiuses and alignments are permitted |
| PlainTolerance.RepairedIsValidExactlyIf | src/storage/validate.cc:65-156 | an exception is raised for an object which has been read if and only if a style, the size of a text or its display of names is invalid |
| PlainTolerance.FlagsAreRead | src/gaf/plainread.py:655-960 | which values of flags count as set |
| PlainTolerance.TextErrorsExactlyIf | src/gaf/plainread.py:1014-1025 | a text is an error if and only if it announces no lines or more than there are |
| PlainTolerance.PathErrorsExactlyIf | src/gaf/plainread.py:800-810 | a path is an error if and only if it announces more lines than there are |
| PlainTolerance.AttributeNameExactlyIf | src/gaf/attrib.py:55-65 | a text is an attribute of some name if and only if it consists of this name, an equals sign and a value, without spaces next to the sign |
| PlainTolerance.LastVisibilityCounts | src/gaf/plainread.py:354-359 | the last attached attribute of a name determines the visibility |
| PlainObjects.PinIsRead | src/gaf/plainwrite.py:180-193 | a pin is read back although its ends are swapped according to its active end |
| PlainObjects.NetIsRead | src/gaf/plainwrite.py:203-210 | a net is read back from absolute end points |
| PlainObjects.BusIsRead | src/gaf/plainwrite.py:194-202 | a bus is read back, whatever its ripper direction |
| PlainObjects.BoxIsRead | src/gaf/plainread.py:539-607 | a box is read back, with fillers in unused line and fill fields |
| PlainObjects.CircleIsRead | src/gaf/plainread.py:423-486 | a circle is read back, with fillers in unused line and fill fields |
| PlainObjects.ArcIsRead | src/gaf/plainread.py:488-537 | an arc is read back |
| PlainObjects.LineIsRead | src/gaf/plainread.py:696-742 | a line is read back from absolute end points |
| PlainObjects.TextIsRead | src/gaf/plainread.py:972-1045 | a text is read back, even if its lines look like other items |
| PlainObjects.PathIsRead | src/gaf/plainread.py:781-841 | a path is read back with all its lines |
| PlainObjects.ComponentIsRead | src/gaf/plainread.py:655-694 | a component is read back, with the embedded flag encoded in the name |
| PlainObjects.PictureIsRead | src/gaf/plainread.py:843-908 | a picture is read back with its embedded data |
| PlainObjects.DataReturns | src/gaf/plainwrite.py:167-301 | every valid object is read back from its line and payload, consuming exactly these |
| PlainReturn.AttachedReads | src/gaf/plainread.py:248-279 | the attribute list which has been written attaches exactly the same texts, in order |
| PlainReturn.SymbolReads | src/gaf/plainread.py:280-304 | the lines of an embedded symbol leave the outer context as it was, with the placed contents in the symbol |
| PlainReturn.ObjectReads | src/gaf/plainread.py:199-338 | reading the lines of an object appends exactly this object, in any context |
| PlainReturn.ObjectsRead | src/gaf/plainread.py:199-338 | reading the lines of some objects appends exactly these, in order |
| PlainVersions.CurrentExactlyIf | src/gaf/plainread.py:69-87 | for all version numbers, which objects look as they do in current files |
| PlainVersions.ModernExactlyIf | src/gaf/plainread.py:69-87 | all objects do if and only if the release is later than 20030921 and the file format is at least 1 |
| PlainVersions.ShortVersionIsRead | src/gaf/plainread.py:315-329 | a version line without a file format number |
| PlainRoundTrip.VersionReturns | src/gaf/plainread.py:177-369 | with any version numbers in the first line, current objects are read without an error |
| PlainVersions.AnyVersionIsRead | src/gaf/plainread.py:177-369 | with any version numbers in the first line, reading gives all objects, or stops at the first one which looks different in this format, also inside of symbols and lists of texts |
| PlainStray.ErrorsAddUp | src/gaf/plainread.py:199-338 | errors which have been reported don't have any influence on what is read afterwards |
| PlainStray.StrayLineIsCounted | src/gaf/plainread.py:248-338 | between any objects, a comment is skipped, and a line without meaning there, including brackets, is one error and is skipped |
| PlainStray.LateVersionCounts | src/gaf/plainread.py:366-367 | if the last version line is that of a format in which pins have no direction, a file with pins has got one error |
| PlainStray.MissingSymbolIsCounted | src/gaf/plainread.py:345-347 | an embedded symbol whose contents are missing is one error |
| PlainStray.UnterminatedList | src/gaf/plainread.py:258-262 | a list of texts which isn't ended is one error, and the texts are attached |
| PlainStray.StrayInList | src/gaf/plainread.py:267-274 | a line in a list which isn't a text is one error and is skipped |
| PlainRoundTrip.FileReturns | src/gaf/plainread.py:177-369 | reading what has been written reports no error and gives all objects in order, with symbols placed and taken back |
| PlainRoundTrip.RawIsFixed | src/gaf/plainread.py:340-351 | an object in a nested symbol is read as it is if and only if the placement leaves its data and texts as they are, and so does the placement of its own symbol for the objects in it |
| PlainRoundTrip.SurvivesExactlyIf | src/gaf/plainread.py:340-364 | an object is the same after it has been written and read if and only if, in an embedded symbol, start angles are in range, visibilities agree, and objects in nested symbols are fixed by the composed placement |
| PlainRoundTrip.NothingEmbedded | src/gaf/plainread.py:177-369 | a schematic without embedded symbols, whose names and texts fit the format, is read back unchanged |
| PlainRoundTrip.StartAngleIsReduced | src/gaf/plainformat.py:241 | an embedded arc starting at 400 degrees doesn't survive |
| PlainRoundTrip.InheritedAttributeIsUnhidden | src/gaf/plainread.py:354-364 | an inherited attribute which is also attached with another visibility doesn't survive |
| PlainRoundTrip.NestedSymbolIsTurned | src/gaf/plainread.py:340-351 | a symbol embedded in an embedded symbol doesn't survive, because only the outer one is put back |
| PlainRoundTrip.MissingContentsAreFilled | src/gaf/plainwrite.py:245-252 | an embedded symbol whose contents are missing is read with empty contents |
| Unwritable.NoFileNameIsLost | src/gaf/plainwrite.py:285-295 | an embedded pixmap without a file name is read with one |
| Unwritable.EmptyFileNameIsLost | src/gaf/plainread.py:843-908 | an embedded pixmap with an empty file name is read without one |
| Unwritable.PrefixIsMisread | src/gaf/plainwrite.py:231-243 | a symbol whose name looks embedded is read as an embedded symbol of another name |
| Unwritable.BlankCannotBeRead | src/gaf/plainread.py:124-150 | whatever the line of a component looks like, the name read from it contains no white space |
| Unwritable.StrippedExactlyIf | src/gaf/plainread.py:154-159 | stripping carriage returns leaves a text as it is if and only if no line ends with one |
| PlainReadable.FileIsReadable | src/gaf/plainread.py:177-369 | whatever a file looks like, if it is read without an error, the names of symbols are words which fit the kind of symbol, file names are non-empty and fit on a line, and no more carriage returns and empty lines have been read than there are in the file |
| PlainWeights.StripIsLighter | src/gaf/plainread.py:154-159 | a text loses weight when carriage returns are stripped, unless no line ends with one |
| PlainWeights.ObjectsAreHeavy | src/gaf/plainwrite.py:167-309 | what the reader gets to see of the written objects is at most as heavy as these, and lighter if some of them, also in nested symbols or attached, has got a carriage return at a line end or a pixmap without a file name |
| PlainMalformed.MalformedObject | src/gaf/plainread.py:423-990 | an object whose first line doesn't have the fields of its type is one error and consumes no other line |
| PlainMalformed.WellFormedObject | src/gaf/plainread.py:423-1045 | an object whose first line has got these fields is always read, unless an exception is raised |
| PlainMalformed.PixmapErrorsExactlyIf | src/gaf/plainread.py:868-897 | when the file name or the data of a pixmap is an error, when an exception is raised, and what is read otherwise |
| PlainMalformed.SymbolRaisesExactlyIf | src/gaf/plainread.py:677-681 | an exception is raised for a symbol if and only if it is loaded but embedded |
| PlainMalformed.MalformedLineIsCounted | src/gaf/plainread.py:199-338 | between any objects, a line of an object or of a version which can't be parsed is one error and is skipped |
| PlainMalformed.InvalidObjectRaises | src/gaf/plainread.py:199-247 | an object with an invalid style, text size or display of names raises an exception, wherever it is in the file |
| PlainMalformed.BracketsInSymbolRaise | src/gaf/plainread.py:248-304 | two brackets after an embedded component raise an exception |
| PlainMalformed.MalformedInList | src/gaf/plainread.py:275-277 | a text in a list which can't be parsed is one error and is skipped |
| PlainMalformed.InvalidInList | src/gaf/plainread.py:275-277 | an invalid text in a list raises an exception |
| PlainExact.AnyVersionExactlyIf | src/gaf/plainread.py:177-369 | the same for files with any version numbers, in which no object may look different |
| PlainExact.RoundTripExactlyIf | src/gaf/plainread.py:177-369 | for loaders which return what they have been asked for (`src/gaf/read.py:114-172`), writing and reading gives the same objects, data, order and attached texts, without an error, if and only if all names, texts and paths fit the format and each embedded symbol survives |
| PlainExact.PixmapNamesAreLost | src/gaf/plainwrite.py:285-295 | a drawing with an embedded pixmap which has got no file name, an empty one, one with a line feed, or one with a carriage return at its end isn't read as it has been written |
| PlainExact.SymbolNamesAreLost | src/gaf/plainwrite.py:231-243 | a drawing with a symbol whose name contains a blank, or looks as if the symbol were embedded, isn't read as it has been written |
| PlainExact.ReturnIsLost | src/gaf/plainread.py:154-159 | a drawing with a text which ends with a carriage return isn't read as it has been written |
| Base64.WrapIsLossless | src/python/base64.py:89-92 | breaking data into lines loses nothing |
| Base64.WrapLengths | src/python/base64.py:89-92 | each data line is non-empty and at most as long as requested, and all but the last exactly as long |
| Base64.Encode | src/python/base64.py:68-115 | what is written are the lines of the encoding, broken as requested, and the delimiter |
| Base64.EncodeBulk | src/python/base64.py:69-92 | the counter of groups breaks the lines exactly where they are full |
| Base64.EncodeLast | src/python/base64.py:94-109 | the last one or two bytes are padded |
| Base64Decoding.Decode | src/python/base64.py:138-215 | the four-state machine computes the specified result and consumes exactly the lines up to the delimiter |
| Base64Decoding.Shift | src/python/base64.py:167-180 | taking in a character keeps the state, the bytes and the leftover bits consistent |
| Base64RoundTrip.OnlyFilteredMatters | src/python/base64.py:157-165 | characters outside of the alphabet are ignored anywhere |
| Base64RoundTrip.ReadEncoding | src/python/base64.py:138-215 | reading the encoding of any data appends this data |
| Base64RoundTrip.RoundTrip | src/python/base64.py:68-215 | reading a file which starts with encoded data gives the data, for all line lengths and whatever follows, and continues after the delimiter, if this has no line feed and no line of data equals it |
| Base64RoundTrip.SafeDelimiter | src/python/base64.py:153-154 | a delimiter with a character outside of the alphabet is never mistaken for data |
| Base64RoundTrip.WrittenIsRead | src/python/base64.py:110-115 | what has been written to a file is read line by line as intended |
| Base64Canonical.StopsTooEarly | src/python/base64.py:153-154 | if a line of data equals the delimiter, reading stops there and data is lost |
| Base64Canonical.RoundTripExactlyIf | src/python/base64.py:68-215 | the data is read from a file to which it has been written, leaving exactly what follows in the file, if and only if the delimiter has no line feed and no line of data equals it |
| Base64Canonical.NewlineAsDelimiter | src/python/base64.py:147-154 | with a line feed as the delimiter, decoding hits the end of the file although no data equals the delimiter |
| Base64Canonical.DataAsDelimiter | src/python/base64.py:153-154 | three zero bytes with AAAA as the delimiter are read as nothing, and the delimiter is left in the file |
| Base64Canonical.ReadingIsSpelled | src/python/base64.py:156-180 | the state of the machine spells exactly the characters read so far which aren't ignored |
| Base64Canonical.DecodingIsCanonical | src/python/base64.py:182-215 | a text is only accepted if it is, apart from ignored characters, the encoding of the result |
| Base64Canonical.DecodingIsInjective | src/python/base64.py:203-209 | no two texts are decoded to the same data unless they only differ in ignored characters |
| Base64Canonical.DecodingDependsOnFiltered | src/python/base64.py:157-165 | without a delimiter, the result only depends on the characters which aren't ignored |
| Base64Values.Alphabet | src/python/base64.py:36 | the characters in the order of their values |
| Base64Values.QuadHasValue | src/python/base64.py:78-93 | three bytes and the four characters which stand for them have the same value as numbers |
| Base64Values.LastHasValue | src/python/base64.py:95-108 | one or two bytes at the end are filled up with zero bits and padding |
| Base64Values.IndexErrorExactlyIf | src/python/base64.py:157-165 | a character outside of Latin-1 is an error of its own if and only if no other error comes before it |
| NumberForms.FixedFormIsRead | src/python/fixednum.py:74-122 | a sign, digits, a point and decimals are read as the number with these digits |
| NumberForms.FixedAcceptedExactlyIf | src/python/fixednum.py:74-122 | exactly such strings are numbers |
| NumberForms.HybridFormIsRead | src/python/hybridnum.py:133-205 | digits before a colon and hexadecimal digits after it are read as the number with these digits |
| NumberForms.HybridAcceptedExactlyIf | src/python/hybridnum.py:133-205 | exactly such strings with a colon are numbers |
| NumberForms.HybridIsShort | src/python/hybridnum.py:100-122 | before the colon, a number has got no zeros in front and either no decimals or all of them |
| NumberForms.FractionIsShort | src/python/hybridnum.py:87-98 | there are no zeros at the end of a fraction |
| FixedNum.ParseReturns | src/python/fixednum.py:32-122 | parsing gives the number which has been formatted, for all integers and numbers of decimals |
| FixedNum.FormatIsNormal | src/python/fixednum.py:32-63 | formatted numbers have no redundant zeros and no signed zero |
| FixedNum.NormalFormIsUnique | src/python/fixednum.py:32-122 | each number has only one normal form, the one which formatting gives |
| FixedNum.ParseString | src/python/fixednum.py:74-122 | taking the string apart step by step gives the specified number or error |
| HybridNum.SplitKeepsValue | src/python/hybridnum.py:78-85 | the bits before and after the point together have the value of the number |
| HybridNum.FractionIsKept | src/python/hybridnum.py:87-98 | trimming, filling and converting the bits after the point keeps their value |
| HybridNum.ParseReturns | src/python/hybridnum.py:42-205 | parsing gives exactly the number which has been formatted, for all numbers and numbers of decimals |
| HybridNum.FixedIsHybrid | src/python/hybridnum.py:133-205 | without a colon, exactly the numbers in fixed-point notation are accepted, with the same value |
| HybridNum.WholeNumbersAgree | src/python/hybridnum.py:100-127 | integers are written in the same way as in the fixed-point notation |
| HybridNum.ZeroIsZero | src/python/hybridnum.py:100-122 | a number is written as a single zero if and only if it is zero, even if it has a sign |
| HybridNum.NoSignedZero | src/python/hybridnum.py:100-127 | the output has a sign if and only if the number is negative |
| HybridStrings.HexReturns | src/python/hybridnum.py:71-76 | hexadecimal digits are determined by their bits |
| HybridStrings.CutBits | src/python/hybridnum.py:78-85 | the bits are extended and cut at the point as specified, for all exponents |
| HybridStrings.TrimBits | src/python/hybridnum.py:87-90 | zeros at the end are removed, then filled up to a whole digit |
| HybridStrings.FormatFloat | src/python/hybridnum.py:42-127 | the loops over bit lists give the specified notation of a number in hexadecimal notation |
| HybridStrings.ParseString | src/python/hybridnum.py:133-205 | taking the string apart step by step gives the specified number or error |
| HybridStrings.EveryFractionReturns | src/python/hybridnum.py:42-205 | every dyadic fraction has a representation which is read back exactly |
| XmlNames.AcceptedIsNameExactlyIf | src/python/xml_writer.py:26-63 | an accepted name is a name according to section 2.3 of XML 1.0 if and only if it doesn't begin with a combining character |
| XmlNames.NameIsAcceptedExactlyIf | src/python/xml_writer.py:26-63 | a name according to the standard is accepted if and only if it has no middle dot and no character outside of the basic plane |
| XmlNames.RefusedExactlyIf | src/python/xml_writer.py:42-61 | the characters which are refused in names |
| XmlEscape.EscapeOne | src/python/xml_writer.py:67-74 | replacing one metacharacter after the other escapes each character once |
| XmlEscape.EscapedIsRead | src/python/xml_writer.py:67-74 | escaped character data is read as the data, provided that it consists of permitted characters other than carriage returns |
| XmlEscape.QuotedIsRead | src/python/xml_writer.py:67-74 | an escaped attribute value is read as the value, provided that there are also no tabs and line feeds in it |
| XmlEscape.CdataIsRead | src/python/xml_writer.py:240-254 | such data in CDATA sections is read as the data, wherever it contains the end of a section (section 2.7 of XML 1.0) |
| XmlEscape.SectionsAreSplit | src/python/xml_writer.py:253 | the first end of a section in the data is put between two sections, and so on |
| XmlTree.CompleteIsTree | src/python/xml_writer.py:117-118 | a document which is read completely is one tree of elements with matching tags and without repeated attribute names |
| XmlReadable.DocumentIsReadable | src/python/xml_writer.py:91-95 | whatever a text looks like, only names and characters permitted by the standard can be read from it, no carriage returns, and no tabs in attribute values (sections 2.2, 2.11 and 3.3.3 of XML 1.0) |
| XmlFormatting.FormattingKeepsEssential | src/python/xml_writer.py:128-138 | formatting keeps all tags and attributes, and all characters but white space, in order |
| XmlFormatting.PreservedContent | src/python/xml_writer.py:128-138 | between parts of a document which preserve white space nothing is inserted, wherever they are in the document |
| XmlWriter.XMLWriter.PrepareForData | src/python/xml_writer.py:128-138 | writes the declaration once and ends an open start tag |
| XmlWriter.XMLWriter.Start | src/python/xml_writer.py:146-165 | exactly the documented errors, without any effect; otherwise the start of the tag with permitted white space before it |
| XmlWriter.XMLWriter.End | src/python/xml_writer.py:169-188 | refused exactly outside of the root element; otherwise the end of the innermost element |
| XmlWriter.XMLWriter.AddAttribute | src/python/xml_writer.py:199-214 | exactly the documented errors, without any effect, in particular for repeated names; otherwise the attribute |
| XmlWriter.XMLWriter.AddCharacterData | src/python/xml_writer.py:221-233 | refused exactly outside of the root element; otherwise the escaped data |
| XmlWriter.XMLWriter.AddCdataSection | src/python/xml_writer.py:240-254 | refused exactly outside of the root element; otherwise the data in CDATA sections |
| XmlWriter.WriteDocument | src/python/xml_writer.py:97-254 | any sequence of calls on a new writer gives the text and the state of the specification |
| XmlMeaning.StartMeans | src/python/xml_writer.py:146-165 | starting an element keeps the text in agreement with what has been asked for |
| XmlMeaning.EndMeans | src/python/xml_writer.py:169-188 | ending an element keeps the text in agreement with what has been asked for |
| XmlMeaning.AttributeMeans | src/python/xml_writer.py:199-214 | adding an attribute keeps the text in agreement with what has been asked for |
| XmlMeaning.DataMeans | src/python/xml_writer.py:221-254 | writing data keeps the text in agreement with what has been asked for |
| XmlMeaning.RunMeans | src/python/xml_writer.py:97-254 | at any time during any sequence of calls with proper names, data and values, the text means what has been asked for so far, without any line ends which would have to be normalized |
| XmlMeaning.RunIsReadable | src/python/xml_writer.py:97-254 | what has been asked for consists of what can be read if and only if all accepted calls had proper names, data and values |
| XmlMeaning.DocumentExactlyIf | src/python/xml_writer.py:97-254 | for all sequences of calls after which the writer is done, the text is a well-formed document of the elements, attributes and data which have been written, in order, if and only if all names are names according to the standard, all characters are permitted, there are no carriage returns in data, and neither carriage returns nor tabs in attribute values |
| XmlMeaning.DocumentIsTree | src/python/xml_writer.py:97-254 | such a document is one tree whose tags, attributes and characters are those asked for |
| XmlMeaning.CombiningNameCannotBeRead | src/python/xml_writer.py:33-40 | a document whose root element is named by a combining character is accepted but not well-formed |
| XmlMeaning.TabAndReturnCannotBeRead | src/python/xml_writer.py:199-214 | a document with a tab in an attribute value and a carriage return in its data, which is accepted but not read as it has been written |
| XmlMeaning.ControlCannotBeRead | src/python/xml_writer.py:221-233 | a document with a control character in its data, which is accepted but not well-formed |
| XmlMeaning.ImproperCallCannotBeRead | src/python/xml_writer.py:91-95 | a single accepted call which isn't proper makes the document different from what has been asked for |
| XmlPreserved.CallsInside | src/python/xml_writer.py:146-254 | whatever is called inside of an element which preserves white space, everything recorded there preserves it as well, and the characters are exactly the data passed |
| XmlPreserved.PreservedElement | src/python/xml_writer.py:146-188 | in any complete document, between the tags of an element started with preserved white space, the characters read are exactly the data passed to the writer between its start and its end |
| XmlLayout.FlatsAreWritten | src/python/xml_writer.py:128-254 | inside of an element which preserves white space, all parts are written one after another |
| XmlLayout.BlocksAreWritten | src/python/xml_writer.py:128-254 | elsewhere, each element and each run of data is on lines of its own, indented by two spaces for each level |
| XmlLayout.TreeIsWritten | src/python/xml_writer.py:97-254 | writing any tree of elements with attributes, data and sections gives the declaration and the text of the tree, and the document is complete |
| Alphabetical.AtMostExactlyIf | src/backend/partslist_common.py:38 | values are compared alphabetically: one continues the other, or the first different character decides |
| Alphabetical.LowerChangesLetters | src/backend/partslist_common.py:38 | upper-case letters count as the lower-case ones, and no other character changes |
| PartsList.SortKeepsRows | src/backend/partslist_common.py:43-49 | sorting keeps all rows |
| PartsList.SortSorts | src/backend/partslist_common.py:43-49 | the rows are in ascending order of the column, apart from case |
| PartsList.MergeSorts | src/backend/partslist_common.py:34-41 | merging sorted lists gives a sorted list |
| PartsList.SortIsStable | src/backend/partslist_common.py:34-49 | rows which are equal in the column, apart from case, keep their order |
| MultikeySort.FindMatchLength | src/backend/partslist_common.py:58-63 | the search from the end finds the last row which has exactly the first value |
| MultikeySort.SortByColumnsRecursively | src/backend/partslist_common.py:51-67 | the recursion ends and computes the specified list |
| MultikeySort.ColumnsKeepRows | src/backend/partslist_common.py:51-67 | sorting by several columns keeps all rows |
| MultikeySort.OrderedByFirstColumn | src/backend/partslist_common.py:51-67 | the rows are always in the order of the first column |
| MultikeySort.OrderedByAllColumns | src/backend/partslist_common.py:51-67 | the rows are in lexicographic order of all columns unless a key column with values which differ only in case is followed by another one with different values |
| CaseVariants.PairIsSorted | src/backend/partslist_common.py:58-67 | two rows whose values differ only in case are never reordered by later columns; each earlier column reverses them |
| CaseVariants.OrderedExactlyIf | src/backend/partslist_common.py:51-67 | all tables over the values permitted in each column come out in lexicographic order if and only if no key column which permits values differing only in case is followed by another one which permits different values |
| CaseVariants.VariantsBreakOrder | src/backend/partslist_common.py:58-67 | for any two values which differ only in case, a table of two rows which isn't put in order |
| PartsCount.FindLastOccurrence | src/backend/gnet_partslist3.py:28-33 | the search from the end finds the last row with the same part |
| PartsCount.CountPartsRecursively | src/backend/gnet_partslist3.py:24-38 | the recursion ends and computes the specified entries |
| PartsCount.EachRowIsCounted | src/backend/gnet_partslist3.py:24-38 | each row is counted in exactly one entry, in order, and quantities are numbers of designators |
| PartsCount.ExactExactlyIf | src/backend/gnet_partslist3.py:24-38 | each part is listed once with its exact quantity if and only if equal parts stand together |
| PartsCount.OrderedIsContiguous | src/backend/gnet_partslist3.py:41-42 | in lexicographic order, equal parts stand together if no values in the columns of the part differ only in case |
| PartsCount.PartsListIsExact | src/backend/gnet_partslist3.py:41-42 | the parts list lists each part once with its exact quantity if no values in the columns of the part differ only in case |
| PartsCount.PartsListExactExactlyIf | src/backend/gnet_partslist3.py:41-42 | the quantities in the parts list are those of the table if and only if sorting puts equal parts together |
| PartsCount.QuantitiesExactlyIf | src/backend/gnet_partslist3.py:41-42 | the parts lists of all tables over the values permitted in each column, in which no designator occurs twice, are exact if and only if no column of the part permits values which differ only in case, or fewer than three designators are permitted |
| PartsCount.VariantVanishes | src/backend/gnet_partslist3.py:24-38 | a part between two others which differ from it only in case, with different designators, is counted as these and not listed itself |
| PartsCount.PartVanishes | src/backend/gnet_partslist3.py:24-38 | a table of three rows for which this happens |

## Left out

- Machine integers: reference counts, object ids and sizes are unbounded.
- Floating-point numbers: coordinates are integers and numbers exact fractions; there is no rounding, infinity or not-a-number.
- Representation of strings, symbols and pixmaps: they are values in the store, and the callbacks which count references to them are not modelled.
- Symbols shared between components: a symbol which two components refer to is a value in each of them.
- Transforming a revision sets each object once, where the code assigns one field after the other.
- Failure of the final assignment of the object map (`src/storage/attributes.cc:610`) and of the look-ups before `try` (`src/storage/manipulate.cc:368-370`), which the code doesn't handle.
- The other attributes of objects (`src/storage/attributes.cc:123-445`), which are accessed in the same way as the ones modelled.
- The selection algebra (`src/storage/selection.cc:24-243`), which consists of calls to set functions.
- `xorn_get_selected_objects`, `xorn_get_added_objects` and `xorn_get_removed_objects`: only their results are defined, as sets; the loops are like those modelled.
- The ripper direction of a bus is a parameter, because it is ignored on reading.
- Loading symbols and pixmaps from a library are parameters.
- Objects which look different in old versions of the file format: reading one of them is a separate outcome without further contents.
- Log messages and line numbers; errors are counted.
- Decoding and encoding of UTF-8, and digits outside of ASCII.
- `float.hex`: a number is given by its leading bit, its hexadecimal digits and its exponent.
- Conversion to lower case is that of ASCII letters.
- The reader of XML documents only covers what the writer can produce: there are no character references, comments, processing instructions or document type declarations.
- The reading and writing of XML files by gaf (`src/gaf/xmlwrite.py`), which depends on a library for parsing.
- The table of packages in a netlist (`src/backend/partslist_common.py:22-28`) and the formatting of rows.
- Language bindings, command lines and file replacement.
