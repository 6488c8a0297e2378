# A verified model of the document store

The repository is a small document store. This project models its hard parts and proves what they keep:

- **The storage engine**, `rtn` over `ixm` over `dms`. Pages are 4,194,304 bytes of memory, with the header, the
  slot table and the records at the offsets the code uses; insert, remove, find, in-place compaction, the
  free-space multimap, the growth of the file and the bucket index are modelled branch by branch. The main
  theorem, `Runs.StoreIsAMap`, says that every run of inserts, finds, removes and reopenings of the file, from an
  empty file, answers as a finite map from keys to records. `DocRuns.StoreIsAMap` says it of documents: a finite map
  from `_id` values to documents. These keep keys by value; `PointerKeys` is the index with the raw
  pointers the code keeps, and `PointerRuns.PointerRunAgrees` says on which runs it is as good.
- **The BSON codec**: builders that share one growing buffer and patch sizes into it, both functions that size an
  element, the iterator, `valid()`.
- **The orders**: element and document comparison, key patterns and their bit masks, natural-order comparison of
  names and of dotted names. `TypeOrder` and `NameOrder` say what these orders are, of types, integers, bytes and
  characters directly.
- **Nested and dotted documents**, through the stack of open builders.
- **JSON text**: escaping, printing, and the grammar rules that read what was printed.
- **The formats**: `KnownAnswers` and `PageFormat` give constants, tables and layouts as bytes, as the standards and
  the file format have them.
- **MD5 over pieces** (sections 3.1 to 3.4 of RFC 1321), **base64** (section 4 of RFC 4648).
- **The worker manager** as a state machine whose steps interleave.

Each object whose methods update its fields is a class (`DmsFile`, `BucketManager`, `RtnFile`, `BufBuilder`,
`BsonObjBuilder`, `BsonObjIterator`, `EmbeddedBuilder`, `Md5State`, `PmdEduMgr`), each in-place algorithm a method on
an array, and each is proved against a function on values; the lemmas about those functions are the results.

A disk full, memory exhausted or a thread that does not start are parameters of the steps (`room`, `memory`,
`thread`). The hash function, the MD5 block function, the rounding of integers to doubles and, up to
`RecordKey`, the way to read a key from a record are parameters too: the results hold for each of them.

## Findings

Where the code does not do what it is for, the code is kept, with the input that shows it and the exact condition
under which it does.

| where | what happens | shown by | holds exactly when |
|---|---|---|---|
| src/dms/dms.cpp:512-515 | compaction strides and moves by the record's size without its 8-byte header. Insert 2,000,000 bytes twice, remove the first, insert 1,500,000: the second record then ends 8 bytes beyond its page, and find returns it with its last 8 bytes taken from the header of the next page | `LiteralStride.LiteralRunFails`, `LiteralStride.LosesB`; with documents `StaleRuns.LiteralStoreIsNoMap` | that run answers as a map exactly when the record ends with those 8 bytes. In general: no insert compacts a page that holds a live record (`PageOps.LiteralInsertIff`, `PageOps.LiteralCompactIff`); such runs answer as a map (`Runs.LiteralRunAgrees`). The parameter `hdr` of the model is 0 for the written stride and 8 for the one insert lays records down by |
| src/ixm/ixmBucket.cpp:244 | the index keeps a raw pointer to the key in the page, and lookups read the key through it. Insert 2,000,000 bytes twice, remove the first, insert 2,100,000: with either stride the place of the second record's key shows a byte of the new one, and find does not find the second record any more | `StaleRuns.StaleReplies`, `StaleRuns.PointerStoreIsNoMap` | lookups agree with those by value, for all keys, exactly as long as every pointer shows the key it was made for (`PointerRuns.LookupsAfter`). An insert leaves all records in place exactly when it does not compact or the live records have no gaps between them (`StaleKeys.PointersSurvive`), and runs of such inserts answer as a map (`PointerRuns.PointerRunAgrees`), also with the stride as written (`PointerRuns.AsWrittenAgrees`) |
| src/dms/dms.cpp:353-360 | best fit looks for more than the record's size, not for the 12 bytes of header and slot. After a record of 4,194,244 bytes a record of 14 bytes is refused although 31 pages are empty | `OnePage.RefusedWithEmptyPages`, `DmsOps.RefusedDespiteRoom` | no page has the size free but not 12 bytes more (`DmsOps.RefusedIff`); in all cases `DmsOps.InsertFate` |
| src/dms/dms.cpp:35-38 | a record too big sets an error code and goes on: no page fits, and the retry loop extends the file until the disk is full | `DmsOps.InsertFate` | the record is smaller than a page less its header |
| src/bson/src/util/embedded_builder.h:44-46 | a name loses its first empty segment, with a dot: `a..b` comes back as `a.b` | `Dotted.SqueezedIff`, `Dotted.NestedDotted` | no name starts with a dot or has two in a row (`Dotted.RoundTripIff`) |
| src/bson/src/util/embedded_builder.h:48-53 | an empty object under a name that ends in an empty segment is lost: `{"": {}}` becomes `{}`, and `{"a.": {}}` becomes `{"a": {}}` | `EmptyObjects.Lost` | the name is not empty and does not end with a dot (`EmptyObjects.FindsIff`) |
| src/bson/src/bsonobj.cpp:208-210, src/bson/src/util/json.cpp:266-276 | a long that fits an int comes back from JSON as an int | `Json.FromJsonPrint` | `Json.RoundTripIff` |
| src/bson/src/bson-inl.h:398-401 | valid() refuses a built code with scope whose code has a NUL inside | `BsonValid.BuiltValid` | no code with scope has one |
| src/bson/src/bsonobj.cpp:749-750 | comparison by a key pattern reads past the pattern and asserts, where the bit mask goes on | `Ordering.MaskIsKey` | not both objects have more fields than the pattern and agree on one more than it has |
| src/pmd/pmdEDUMgr.cpp:201-224 | when a worker's thread does not start, the latch is not released: no call ever changes the queues again. The first startEDU of all is enough | `EduRuns.FailedStart`, `EduMgr.FrozenAfterFailure` | every thread started (`EduMgr.HeldIff`) |
| src/pmd/pmdEDUMgr.cpp:255-256 | the test against the pool limit is inverted: a returned agent is destroyed while there are fewer workers than the limit, and pooled when there are as many or more. With a limit of n, n+1 agents that all come back are all pooled | `EduRuns.PastLimit`; while there are fewer workers than the limit none is ever pooled (`EduRuns.NeverPooled`) | a return pools the agent exactly if the workers are as many as the limit or more (`EduRuns.PooledIff`), and keeps the idle workers within the limit exactly if there were fewer of them before (`EduRuns.LimitKeptIff`) |
| src/pmd/pmdEDUMgr.cpp:108 | startEDU takes its iterator into the idle queue before it takes the latch. A call that begins while no worker is idle, and gets the latch after one has come back to the pool, follows end() | `EduRuns.StaleIterator` | no other worker is idle, or the one that was first when the call began still is (`EduRuns.StrayIff`) |

## Model

| member | source | states |
|---|---|---|
| Compaction.LoopCompacts | src/dms/dms.cpp:508-522 | the loop over the slots runs to its end on every page, never overwriting a record or slot it has yet to visit, and with insert's stride has every record it passed in its packed place |
| Compaction.MovedMidway | src/dms/dms.cpp:515-517 | one move brings exactly one record to its packed place and leaves all others, moved or not, as they were |
| Compaction.LoopKeeps | src/dms/dms.cpp:508-522 | what holds when the loop starts and is kept by each turn holds when it ends |
| PageOps.FormattedValid | src/dms/dms.cpp:298-309 | a fresh page meets the page invariant and is empty |
| PageOps.CompactKeeps | src/dms/dms.cpp:495-524 | compaction keeps every slot's record, packs the live ones against the page end in slot order, and makes all free space one gap |
| PageOps.LiteralCompactIff | src/dms/dms.cpp:508-523 | with the stride as written the page stays sound, with its contents, exactly when it holds no live record |
| PageOps.ReadiedKeeps | src/dms/dms.cpp:86-91 | when the counter covers a record the page ends up with a gap for it, and nothing on it is lost |
| PageOps.InsertIntoKeeps | src/dms/dms.cpp:76-119 | an insert into a page succeeds exactly when the counter covers record, header and slot; it adds that record and keeps the invariant, or keeps the contents |
| PageOps.LiteralInsertIff | src/dms/dms.cpp:86-119 | as written, an insert is sound exactly when it does not compact a page with live records, and then does the same |
| PageOps.RemovedKeeps | src/dms/dms.cpp:160-169 | removing a slot succeeds exactly on a live one, drops it alone, gives its size back and keeps the invariant |
| PageOps.PointersSurviveIff | src/dms/dms.cpp:515-517 | every record stays where it is exactly when the insert does not compact or all are packed already |
| StaleKeys.PackedIff | src/dms/dms.cpp:508-522 | all are packed exactly when each live record ends where the one before it begins |
| StaleKeys.PointersSurvive | src/dms/dms.cpp:508-522 | every record of a page stays where it is exactly when the insert does not compact or there are no such gaps |
| PointerKeys.LookupsAgreeIff | src/ixm/ixmBucket.cpp:158-191 | lookups that read keys through pointers give, for all keys, what the entries were made for exactly when every pointer shows its key |
| PointerKeys.FindIndex | src/ixm/ixmBucket.cpp:158-191 | the scan loop, each key read through its pointer |
| PointerRuns.LookupsAfter | src/ixm/ixmBucket.cpp:229-250 | whatever the pages of a store come to hold, its lookups stay right exactly as long as every pointer shows the key it was made for |
| PointerRuns.ShowsKey | src/ixm/ixmBucket.cpp:244-244 | the pointer of an entry shows the key of its record, whatever follows the record in memory |
| PointerRuns.PointStep | src/rtn/rtn.cpp:54-100 | each operation that moves no record replies as with keys by value, and keeps all pointers right; so does reopening |
| PointerRuns.PointerRunAgrees | src/rtn/rtn.cpp:54-100 | with pointers to keys, every run whose inserts move no record answers as a map |
| PointerRuns.AsWrittenAgrees | src/dms/dms.cpp:495-524 | with pointers and with the stride as written the same holds of runs that besides compact no page with live records |
| DocPointers.DocumentReads | src/ixm/ixmBucket.cpp:229-250 | the type and value that a pointer to the `_id` element of a built document shows are its key, whatever follows the document |
| DocPointers.PointerStoreOfDocuments | src/rtn/rtn.cpp:54-100 | over documents, keys read through pointers, such runs answer as a map from `_id` values |
| StaleRuns.StaleReplies | src/ixm/ixmBucket.cpp:158-191 | a run from a new file, with either stride, in which find does not find a record the map holds |
| StaleRuns.PointerStoreIsNoMap | src/ixm/ixmBucket.cpp:158-191 | there are such documents for every hash function |
| StaleRuns.LiteralStoreIsNoMap | src/dms/dms.cpp:512-515 | with the stride as written some run over documents, for every hash function, does not answer as a map |
| LiteralStride.InsertBreaks | src/dms/dms.cpp:86-119 | the insert that compacts a page with a tombstone before a live record stores its own record, and leaves that one sticking out of the page: find reads its last 8 bytes from the memory behind the page |
| LiteralStride.LosesB | src/dms/dms.cpp:495-524 | a run from a new file reaches such a page; after the insert find answers a live record with its last 8 bytes replaced by the header of the next page |
| LiteralStride.LiteralRunFails | src/dms/dms.cpp:512-515 | all replies of that run as written; they are those of a map exactly when the record ends with these 8 bytes; with insert's stride they always are |
| PageFormat.FreshPage | src/dms/dms.cpp:298-309 | the bytes of a fresh page |
| PageFormat.InsertWrites | src/dms/dms.cpp:101-119 | the words insert stores, at their offsets, and the record's bytes |
| PageFormat.RemoveWrites | src/dms/dms.cpp:160-169 | the words remove stores; nothing else changes |
| PageMemory.RecoverSpace | src/dms/dms.cpp:495-524 | compaction in place on an array, with its memmoves |
| PageMemory.InsertRecord | src/dms/dms.cpp:76-119 | insert's writes in place on an array |
| PageMemory.DropRecord | src/dms/dms.cpp:147-169 | remove's writes in place on an array |
| PageMemory.ReadRecord | src/dms/dms.cpp:193-214 | find's reads of an array, and of the memory behind the page if the object goes on there |
| PageMemory.MemMove | src/dms/dms.cpp:515-515 | an overlapping move copies the old bytes |
| FreeMap.UpperBound | src/dms/dms.cpp:355-355 | all keys before the position are at most the one asked for, all from it on are greater |
| FreeMap.Added | src/dms/dms.cpp:240-240 | the multimap stays in order and gains exactly that entry |
| FreeMap.Erased | src/dms/dms.cpp:228-235 | the multimap stays in order and loses exactly that entry |
| Dms.FindPageBestFit | src/dms/dms.cpp:353-360 | the page chosen has the least free space above the size; none only if no page has more |
| Dms.ExtendedKeeps | src/dms/dms.cpp:279-326 | the new pages take the next unused ids, the multimap gains one entry for each, no record changes |
| DmsOps.InsertKeeps | src/dms/dms.cpp:23-130 | insert adds exactly the record it reports, under an id not in use, or changes no record; the file stays valid |
| DmsOps.InsertFate | src/dms/dms.cpp:23-130 | at most one extension for a record smaller than a page less its header, and exactly when it is stored; for a larger one the disk is used up and insert fails |
| DmsOps.RefusedDespiteRoom | src/dms/dms.cpp:92-99 | a page with the size free but not 12 bytes more makes insert fail whatever room the others have |
| DmsOps.StoredIff | src/dms/dms.cpp:23-130 | insert succeeds exactly if some page has more than the size free and none is tight, or none has and the disk has room for a segment and the record fits a fresh page |
| DmsOps.RefusedIff | src/dms/dms.cpp:92-99 | while some page has more than the size free, insert fails exactly when there is such a page |
| OnePage.RefusedWithEmptyPages | src/dms/dms.cpp:353-360 | a run in which a record of 14 bytes is refused with 31 pages empty |
| DmsOps.RemoveKeeps | src/dms/dms.cpp:132-177 | removing a live record drops it and no other |
| DmsOps.FindKeeps | src/dms/dms.cpp:179-221 | find returns the bytes of a live record |
| DmsFile.DmsFile.Insert | src/dms/dms.cpp:23-130 | the retry loop over the fields of the object does what insert on values does |
| DmsFile.DmsFile.ExtendSegment | src/dms/dms.cpp:279-326 | the fields grow by one segment |
| DmsFile.DmsFile.UpdateFreeSpace | src/dms/dms.cpp:223-241 | the page's entry under its old key leaves, one under its new key comes, no other changes |
| DmsFile.DmsFile.Remove | src/dms/dms.cpp:132-177 | the object after remove |
| DmsFile.DmsFile.Find | src/dms/dms.cpp:179-221 | the reply of find, read across pages of a segment; nothing changes |
| Index.GetIff | src/ixm/ixmBucket.cpp:158-191 | the scan of a bucket finds exactly the entry of the key, whatever keys share its hash |
| Index.CreateGrows | src/ixm/ixmBucket.cpp:53-72 | an entry created for a new key is found, and all other keys answer as before, for every hash function |
| Index.RemoveShrinks | src/ixm/ixmBucket.cpp:74-93 | a removed key is not found any more, and all other keys answer as before |
| Ixm.BucketManager.FindIndex | src/ixm/ixmBucket.cpp:95-115 | the scan loop's answer; nothing changes |
| Ixm.BucketManager.CreateIndex | src/ixm/ixmBucket.cpp:53-72 | one entry comes to the bucket of the key's hash, the other buckets stay |
| Ixm.BucketManager.RemoveIndex | src/ixm/ixmBucket.cpp:74-93 | the entry found for the key leaves its bucket, with the record id taken out; the other buckets stay |
| Rtn.InsertStep | src/rtn/rtn.cpp:54-74 | insert refuses a record without key or with a key in use; else it adds it to the map exactly if there is a place for it, as in DmsOps.StoredIff, and otherwise leaves the map as it is |
| Rtn.FindStep | src/rtn/rtn.cpp:76-87 | find returns exactly the bytes inserted under the key, and an error for other keys |
| Rtn.RemoveStep | src/rtn/rtn.cpp:89-100 | remove takes out that key and no other |
| RtnFile.RtnFile.RtnInsert | src/rtn/rtn.cpp:54-74 | the file and index objects after it, and its reply |
| RtnFile.RtnFile.RtnFind | src/rtn/rtn.cpp:76-87 | its reply; nothing changes |
| RtnFile.RtnFile.RtnRemove | src/rtn/rtn.cpp:89-100 | the file and index objects after it, and its reply |
| RtnFile.RtnFile.LoadData | src/dms/dms.cpp:455-486 | the free-space multimap and the index loaded from the pages, or the refusal of a duplicate |
| Reopen.ReopenRebuilds | src/dms/dms.cpp:430-492 | from the pages of any valid store loading finds no duplicate and rebuilds an index that answers every key as before and a multimap with the same entries |
| Runs.StoreIsAMap | src/rtn/rtn.cpp:54-100 | every run from an empty file, with reopenings, replies as a finite map; errors leave the map unchanged |
| Runs.RunConforms | src/rtn/rtn.cpp:54-100 | the same from any store that holds a map |
| Runs.LiteralRunAgrees | src/dms/dms.cpp:495-524 | with the stride as written the same holds of runs whose inserts compact no page with live records |
| Reachable.PagesOfRuns | src/dms/dms.cpp:85-119 | on the bytes of every page of every reachable store: slot table, free offset and live records in order, in bounds and disjoint, every byte accounted for; one multimap entry per page, keyed by its counter |
| RecordKey.KeyIsId | src/ixm/ixmBucket.cpp:229-250 | a built document has the key made of type and value of its first field named `_id`, if that is an int or a string, and none in all other cases |
| RecordKey.SameKeyIff | src/ixm/ixmBucket.cpp:229-250 | two documents have the same key exactly if their `_id`s agree in type and value |
| RecordKey.ProcessData | src/ixm/ixmBucket.cpp:229-250 | the key read through getField is that of the `_id`, or there is none |
| RecordKey.DocumentStoreIsAMap | src/rtn/rtn.cpp:54-100 | over records that are documents the store conforms to a map, with the keys that KeyIsId gives |
| DocRuns.StoreIsAMap | src/rtn/rtn.cpp:54-100 | every run of requests with documents replies as a finite map from `_id` values to documents; a document without such an `_id` is refused |
| Bson.SizesAgree | src/bson/src/bson-inl.h:416-570 | the checked and the unchecked size of a built element are its extent |
| KnownAnswers.Types | src/bson/src/bsontypes.h:33-86 | types by their numbers, and the sizes of those of one size |
| KnownAnswers.HelloWorld | src/bson/src/bsonobjbuilder.h:87-200 | the bytes of {"hello": "world"} as bsonspec.org gives them |
| KnownAnswers.CodeWithScope | src/bson/src/bsonobjbuilder.h:87-200 | the bytes of a code with scope |
| BsonRead.DecodeEncode | src/bson/src/bsonobjiterator.h:36-71 | reading a built document, however nested, gives exactly the elements appended, in order |
| BsonRead.BsonObjIterator.Next | src/bson/src/bsonobjiterator.h:60-71 | the next element, and the position after it |
| BsonRead.ReadAll | src/bson/src/bsonobjiterator.h:52-71 | the loop yields the encodings of the fields, in order |
| BsonRead.GetField | src/bson/src/bson-inl.h:150-158 | the first element of the name, or the end of the object |
| BsonBuild.BufBuilder.Grow | src/bson/src/util/builder.h:187-214 | room for the bytes with the contents kept, or the exception above 64 MB |
| BsonBuild.BufBuilder.Write | src/bson/src/util/builder.h:147-182 | the contents followed by the bytes |
| BsonBuild.BsonObjBuilder.Done | src/bson/src/bsonobjbuilder.h:685-698 | the size patched in is the extent of the object |
| BsonBuild.BuildObject | src/bson/src/bsonobjbuilder.h:87-200 | nested builders on one shared buffer leave exactly the document's encoding behind what was there |
| BsonBuild.Build | src/bson/src/bsonobjbuilder.h:575-582 | the bytes of any document, and an exception exactly if it is longer than the 16 MB and 16 KB that the constructor of BSONObj allows |
| BsonValid.Valid | src/bson/src/bsonobj.cpp:669-695 | what valid() returns, exceptions caught |
| BsonValid.ValidateValue | src/bson/src/bson-inl.h:373-413 | the checks on an element's value, and valid() of the object in it |
| BsonValid.StringAccepted | src/bson/src/bson-inl.h:383-391 | of any bytes, a string or reference is accepted exactly if they begin with a built string |
| BsonValid.ScopeAccepted | src/bson/src/bson-inl.h:392-408 | of any bytes, code with scope is accepted exactly if they are size, code without a NUL and an accepted object |
| BsonValid.BuiltValid | src/bson/src/bsonobj.cpp:669-695 | valid() accepts a built document exactly when no code with scope in it has a NUL in its code |
| Order.TransitiveBy | src/bson/src/bsonobj.cpp:731-772 | lexicographic comparison is transitive under any pattern of directions |
| Order.MirrorBy | src/bson/src/bsonobj.cpp:731-772 | it is antisymmetric, and only equals compare equal |
| WoCompare.ValuesCompare | src/bson/src/bsonobj.cpp:465-564 | compareElementValues has the sign of the comparison of the values' keys |
| WoCompare.ElementsCompare | src/bson/src/bson-inl.h:39-53 | so has woCompare of elements, rank and name first |
| TypeOrder.TypesDecide | src/bson/src/bsonelement.h:464-490 | elements whose types have different places in the list of sixteen classes compare as these, whatever their names and values |
| TypeOrder.NameThenValue | src/bson/src/bson-inl.h:39-53 | elements of one class compare by what their names show, if names count, and then by value |
| TypeOrder.EveryTypeIsIn | src/bson/src/bsonelement.h:464-490 | every type has its place in the list |
| TypeOrder.NumbersInOrder | src/bson/src/bsonobj.cpp:482-512 | ints and longs compare as the integers of their bytes, in two's complement |
| TypeOrder.DatesInOrder | src/bson/src/bsonobj.cpp:477-481 | dates and timestamps compare as unsigned 64-bit numbers |
| TypeOrder.BoolsInOrder | src/bson/src/bsonobj.cpp:475-476 | booleans compare as signed bytes |
| TypeOrder.IdsInOrder | src/bson/src/bsonobj.cpp:513-514 | object ids compare by the first byte that differs |
| TypeOrder.StringsInOrder | src/bson/src/bsonobj.cpp:515-519 | strings, symbols and code compare by the first difference of what they show before a NUL |
| TypeOrder.BinsInOrder | src/bson/src/bsonobj.cpp:529-536 | binary data compares by length, subtype and bytes |
| TypeOrder.RefsInOrder | src/bson/src/bsonobj.cpp:523-528 | references compare by the length of the name, the name and the id |
| TypeOrder.RegexesInOrder | src/bson/src/bsonobj.cpp:537-542 | regular expressions compare by pattern and flags |
| TypeOrder.ScopedInOrder | src/bson/src/bsonobj.cpp:543-554 | code with scope compares by the code and by what the scope's bytes show |
| TypeOrder.ElementDecides | src/bson/src/bsonobj.cpp:731-772 | the first elements that differ decide between documents, turned round if their position descends |
| TypeOrder.LengthDecides | src/bson/src/bsonobj.cpp:731-772 | if none differ the document with fewer elements comes first |
| TypeOrder.BytesBefore | src/bson/src/bsonobj.cpp:513-519 | the comparison of bytes is by the first difference, as unsigned numbers, a prefix first |
| WoCompare.TotalPreorder | src/bson/src/bsonobj.cpp:731-772 | in the order that TypeOrder describes, woCompare of nested documents without doubles is total, sign-antisymmetric and transitive, under any pattern |
| Ordering.Make | src/bson/src/ordering.h:50-64 | bit i is set exactly if the i-th value is an int or a long below zero in two's complement, or a double below zero by its sign, exponent and fraction; it asserts exactly on more than 32 fields |
| Ordering.NegativeIs | src/bson/src/ordering.h:59-60 | the test number() < 0 is that condition on the bytes |
| Ordering.OneField | src/bson/src/bsonobj.cpp:697-772 | on one field each both comparisons give that of the elements, turned round exactly if the pattern's integer is negative |
| KnownAnswers.NegativeDescends | src/bson/src/ordering.h:59-60 | in a pattern the integer m, as int or as long, descends exactly if m < 0 |
| Ordering.BitsLawful | src/bson/src/ordering.h:36-64 | the bit operations on a 32-bit word meet the laws the results rest on |
| Ordering.CompareByMask | src/bson/src/bsonobj.cpp:697-728 | the loop with the moving mask |
| Ordering.CompareByPattern | src/bson/src/bsonobj.cpp:731-772 | the loop that reads the pattern along, descending where Descends holds of the bytes, and where it asserts |
| Ordering.MaskIsKey | src/bson/src/bsonobj.cpp:697-772 | for every pattern of at most 32 fields, read by Descends, both comparisons give the same result for all objects, or the one by pattern asserts, and exactly when |
| Ordering.WordMaskIsKey | src/bson/src/ordering.h:36-64 | the same for 32-bit words |
| Ordering.MaskAgrees | src/bson/src/bsonobj.cpp:697-772 | on objects with no more fields than the pattern they agree |
| LexNum.LexNumCmp | src/bson/src/bsonobj.cpp:80-150 | the cursor loop is the lexicographic comparison of tokens, each run of digits a number of any length |
| LexNum.NamesPreorder | src/bson/src/bsonobj.cpp:80-150 | hence a total preorder |
| NameOrder.PlainNames | src/bson/src/bsonobj.cpp:136-140 | ASCII names without digits compare byte by byte |
| NameOrder.FirstDifferenceDecides | src/bson/src/bsonobj.cpp:85-150 | of names equal up to a position outside a run of digits what comes there decides: digits above all other characters but 255, the rest as signed chars, the shorter name first |
| NameOrder.NumbersDecide | src/bson/src/bsonobj.cpp:99-128 | runs of digits compare as the numbers they write, however long; after equal numbers the rest decides |
| NameOrder.EqualParts | src/bson/src/bsonobj.cpp:85-150 | parts that compare equal and end outside a run of digits do not matter |
| NameOrder.PieceDecides | src/bson/src/bsonobj.cpp:594-634 | of dotted names with equal first pieces the next decides: which name is LEFT_BEFORE or RIGHT_BEFORE, which is a SUBFIELD, SAME, and the assertion after 2^20 |
| NameOrder.HasPieces | src/bson/src/bsonobj.cpp:594-634 | every name has its pieces, none with a dot, that joined by dots give it back |
| LexNum.CompareDottedFieldNames | src/bson/src/bsonobj.cpp:594-634 | the loop over the pieces of two names |
| LexNum.CompareMeaning | src/bson/src/bsonobj.cpp:594-634 | swapping mirrors; SUBFIELD exactly when one list of pieces is a proper prefix of the other; where it asserts |
| Dotted.Sorts | src/bson/src/bson-inl.h:309-317 | the map is in the order of its names and holds the last field of each |
| Dotted.SqueezedIff | src/bson/src/util/embedded_builder.h:66-73 | a name comes back as it was exactly when no segment but the last is empty |
| Dotted.NestedDotted | src/bson/src/bsonobj.cpp:1142-1166 | for every document dotted2nested throws nothing, and nested2dotted of the result gives each field in the order of the names, its name squeezed |
| Dotted.RoundTripIff | src/bson/src/bsonobj.cpp:1142-1166 | without sub-objects it gives the sorted document exactly when all names are whole |
| DottedNames.TidyIff | src/bson/src/util/embedded_builder.h:32-47 | each sub-object is opened once and no name given twice at any level exactly when no name goes on from another with a dot |
| DottedNames.FindsAll | src/bson/src/bson-inl.h:683-695 | and then getFieldDotted finds every dotted name's value in the nested form |
| DottedNames.IsTidy | src/bson/src/util/embedded_builder.h:48-56 | empty objects among the values change nothing about that |
| EmptyObjects.FindsIff | src/bson/src/util/embedded_builder.h:48-56 | with empty objects too, whole names that do not go on from each other: getFieldDotted finds each name's last value, an empty object exactly if its name does not end in an empty segment |
| EmptyObjects.NestedLeaves | src/bson/src/bsonobj.cpp:1158-1166 | the nested form has in order all fields of the sorted document, the empty objects too, if those have whole names that end in no empty segment and are not gone on from |
| EmptyObjects.Alone | src/bson/src/util/embedded_builder.h:49-53 | an empty object alone, its name not empty and without a dot, comes back as it is |
| EmptyObjects.Lost | src/bson/src/util/embedded_builder.h:49-53 | under the names "" and "a." it does not |
| EmptyObjects.OneDot | src/bson/src/util/embedded_builder.h:66-73 | a dot separates the name of an object from that of the field in it |
| EmptyObjects.DotLost | src/bson/src/util/embedded_builder.h:66-73 | which dot a name loses |
| EmptyObjects.TakenInOrder | src/bson/src/bson-inl.h:309-317 | fields are taken in the order of their names, byte by byte |
| DottedNames.LeadsInto | src/bson/src/bson-inl.h:683-700 | a dotted name leads into an object and into an array, unless a field has the whole name |
| EmbeddedBuilder.EmbeddedBuilder.PrepareContext | src/bson/src/util/embedded_builder.h:32-47 | which builders are open after it, the rest of the name, and exactly when substr throws |
| EmbeddedBuilder.EmbeddedBuilder.AppendAs | src/bson/src/util/embedded_builder.h:48-56 | the field is in its builder, or an empty object only opened |
| EmbeddedBuilder.EmbeddedBuilder.Done | src/bson/src/util/embedded_builder.h:61-64 | all builders are closed into the root; unless there was an exception no object closed is too long |
| EmbeddedBuilder.DottedToNested | src/bson/src/bsonobj.cpp:1158-1166 | the bytes appended to the shared buffer are those of the nested form, for every document; unless there was an exception no sub-object is longer than BSONObj allows |
| EmbeddedBuilder.NestedToDotted | src/bson/src/bsonobj.cpp:1142-1156 | the bytes appended are those of the dotted form |
| JsonString.Escape | src/bson/src/bsonobj.cpp:152-192 | the loop's text |
| JsonString.UnitIsUtf8 | src/bson/src/util/json.cpp:197-215 | four hexadecimal digits are read as the UTF-8 of their code point (section 3 of RFC 3629) |
| KnownAnswers.HexDigits | src/bson/src/util/hex.h:26-34 | hexadecimal digits in both cases have the value of their place |
| KnownAnswers.CodePoint | src/bson/src/util/json.cpp:197-215 | `\u` and four digits of either case are read as the UTF-8 of the code point they write |
| KnownAnswers.Escapes | src/bson/src/bsonobj.cpp:152-192 | what each byte is written as (section 7 of RFC 8259) |
| KnownAnswers.Unescapes | src/bson/src/util/json.cpp:155-195 | what each escape is read as |
| JsonString.InsideEscaped | src/bson/src/util/json.cpp:476-492 | unescaping inverts escape on every byte string |
| Json.FromJsonPrint | src/bson/src/util/json.cpp:450-518 | reading a printed document, at any indentation, gives it back up to symbols, small longs, booleans and element names |
| Json.RoundTripIff | src/bson/src/bsonobj.cpp:641-667 | printing then reading is the identity exactly on documents without those |
| KnownAnswers.TwoMembers | src/bson/src/bsonobj.cpp:641-667 | the text of an object on one line |
| KnownAnswers.Indented | src/bson/src/bsonobj.cpp:641-667 | line breaks and indents of pretty printing |
| KnownAnswers.ReadsInteger | src/bson/src/util/json.cpp:266-276 | an integer is read with either sign or none |
| JsonBuild.JsonDoc | src/bson/src/bsonobj.cpp:641-667 | the loop's text |
| JsonBuild.JsonList | src/bson/src/bsonobj.cpp:234-257 | the loop's text |
| JsonBuild.ReadValue | src/bson/src/util/json.cpp:458-472 | the value read is appended to the open builder, whatever it nests, or the text does not read; an exception if an object or array closed in it is too long |
| JsonBuild.ReadMembers | src/bson/src/util/json.cpp:450-455 | so are the members of an object, in order |
| JsonBuild.ReadElements | src/bson/src/util/json.cpp:456-457 | so are the elements of an array, named by their index |
| JsonBuild.ReadJson | src/bson/src/util/json.cpp:594-613 | the bytes built are the encoding of the document the text reads as; it fails exactly if the text does not read or the document is longer than BSONObj allows |
| KnownAnswers.Md5Init | src/bson/src/lib/md5.cpp:313-319 | the state a message starts with, as the bytes of section 3.3 of RFC 1321 |
| KnownAnswers.Md5Padding | src/bson/src/lib/md5.cpp:360-381 | the padded message, byte by byte, as in its sections 3.1 and 3.2 |
| Md5.CountAdds | src/bson/src/lib/md5.cpp:326-338 | the two words count 8 times the length, mod 2^64 |
| Md5.Md5State.Append | src/bson/src/lib/md5.cpp:322-358 | the state after a piece: blocks folded, counter, unprocessed tail in the buffer |
| Md5.Md5State.Finish | src/bson/src/lib/md5.cpp:360-381 | the digest is that of the padded message |
| Md5.DigestOf | src/bson/src/lib/md5.cpp:312-381 | for every message and every way to cut it the digest is the fold of the block function over the padded message |
| Base64.FillTable | src/bson/src/lib/base64.h:36-40 | the decode table holds each letter's index, and zero elsewhere |
| Base64.StandardInverse | src/bson/src/lib/base64.h:30-52 | the two tables are inverse to each other |
| KnownAnswers.Letters | src/bson/src/lib/base64.h:30-34 | the alphabet is that of section 4 of RFC 4648 |
| KnownAnswers.Foo | src/bson/src/lib/base64.cpp:28-65 | samples of its section 10 |
| Base64.EncodeTo | src/bson/src/lib/base64.cpp:28-65 | the loop over groups of three |
| Base64.DecodeTo | src/bson/src/lib/base64.cpp:79-103 | the loop over groups of four |
| Base64.EncodeLength | src/bson/src/lib/base64.cpp:28-65 | the text has four characters for each group of up to three bytes |
| Base64.StandardDecodeEncode | src/bson/src/lib/base64.cpp:28-103 | decoding inverts encoding on every byte string |
| Base64.StandardEncodeDecodeIff | src/bson/src/lib/base64.cpp:28-103 | encoding inverts decoding exactly on canonical padded text |
| EduMgr.StepKeeps | src/pmd/pmdEDUMgr.cpp:79-388 | every step of every call and worker keeps the invariant |
| EduMgr.EveryRunSafe | src/pmd/pmdEDUMgr.cpp:104-388 | in every interleaving, until an iterator is followed that points at no idle worker, the queues are disjoint, ids grow and are never reissued, only agents are idle, nothing queued is being destroyed, live workers are those started less those destroyed |
| EduMgr.ReusedIs | src/pmd/pmdEDUMgr.cpp:122-131 | the idle worker that startEDU takes runs as the kind asked for, waiting; no other changes |
| EduMgr.EnteredIs | src/pmd/pmdEDUMgr.cpp:195-224 | a new worker has the next id and is being created; if its thread fails there is none, and the latch is held |
| EduMgr.ActivatedIs | src/pmd/pmdEDUMgr.cpp:150-178 | the worker runs, in the run queue, wherever it was; no other changes |
| EduMgr.WaitedIs | src/pmd/pmdEDUMgr.cpp:355-388 | a running worker waits where it is; otherwise nothing changes |
| EduMgr.RemovedIs | src/pmd/pmdEDUMgr.cpp:282-322 | the worker is in no queue; no other changes |
| EduMgr.DeactivatedIs | src/pmd/pmdEDUMgr.cpp:325-352 | the worker waits in the pool, wherever it was; no other changes |
| EduMgr.ReturnedIs | src/pmd/pmdEDUMgr.cpp:233-279 | which returned workers are gone, and which are in the pool, waiting |
| EduMgr.FrozenAfterFailure | src/pmd/pmdEDUMgr.cpp:201-224 | once a thread has failed to start no call changes the queues |
| EduMgr.HeldIff | src/pmd/pmdEDUMgr.cpp:201-224 | the latch is left held exactly when one has |
| EduRuns.FailedStart | src/pmd/pmdEDUMgr.cpp:201-224 | the first startEDU, its thread failing, leads to a state in which no step that takes the latch is enabled |
| EduRuns.PastLimit | src/pmd/pmdEDUMgr.cpp:255-272 | for every limit some run from a new manager comes to one idle worker more than that |
| EduRuns.NeverPooled | src/pmd/pmdEDUMgr.cpp:255-272 | in every interleaving, as long as there are fewer workers than the limit, none is ever idle |
| EduRuns.PooledIff | src/pmd/pmdEDUMgr.cpp:255-272 | a running agent that is returned is idle afterwards exactly if the workers were as many as the limit or more |
| EduRuns.LimitKeptIff | src/pmd/pmdEDUMgr.cpp:255-272 | its return leaves at most as many idle workers as the limit exactly if there were fewer before |
| EduRuns.StaleIterator | src/pmd/pmdEDUMgr.cpp:108-131 | a run from a new manager in which startEDU follows an iterator that points at no idle worker |
| EduRuns.StrayIff | src/pmd/pmdEDUMgr.cpp:108-131 | a step does that exactly when the worker first in the queue when the call began, if any, is not idle any more and another one is |
| EduMgr.PmdEduMgr.StartEdu | src/pmd/pmdEDUMgr.cpp:104-140 | the queues after it, its reply, and which idle worker it takes |
| EduMgr.PmdEduMgr.CreateNewEdu | src/pmd/pmdEDUMgr.cpp:180-231 | the queues and the next id after it, its reply, the latch |
| EduMgr.PmdEduMgr.ActivateEdu | src/pmd/pmdEDUMgr.cpp:150-178 | the queues after it and its reply |
| EduMgr.PmdEduMgr.WaitEdu | src/pmd/pmdEDUMgr.cpp:355-388 | the queues after it and its reply |
| EduMgr.PmdEduMgr.ReturnEdu | src/pmd/pmdEDUMgr.cpp:233-279 | the queues after it and its reply |
| EduMgr.PmdEduMgr.DestroyEdu | src/pmd/pmdEDUMgr.cpp:282-322 | the queues after it and its reply |
| EduMgr.PmdEduMgr.DeactivateEdu | src/pmd/pmdEDUMgr.cpp:325-352 | the queues after it and its reply |
| EduMgr.PmdEduMgr.ForceEdus | src/pmd/pmdEDUMgr.cpp:79-102 | every worker of both queues is forced, nothing else changes |

## Left out

- Sockets, files, mapping of memory, logging, signals, options: a segment is 32 fresh arrays, one for each page.
- Concurrency inside the store: each operation is one step, so the race between the duplicate check and the insert is not modelled.
- Liveness and shutdown of the worker manager, its posts and waits for events, and the map of thread ids.
- EduMgr.EveryRunSafe: promises nothing once a stray iterator has been followed, which is undefined in the code.
- EduMgr.PmdEduMgr.ReturnEdu: an unknown id is an error also without an out-parameter, where the code would follow end().
- EduMgr.PmdEduMgr.ForceEdus: has no parameter for system or user workers; nothing fills the map of system workers.
- PageMemory.ReadRecord: reads across the pages of a segment, but what would lie beyond the segment is refused, where the code would read unmapped memory.
- PageMemory.DropRecord: a slot that points out of its page is refused, where the code would write beyond the page; RecoverSpace and InsertRecord leave alone, or require there not to be, a page on which the loop would move a record out of the page or onto its own slot. No valid page has such a slot, and none occurs in the runs of LiteralStride and StaleRuns.
- DmsOps.FindKeeps: is about live ids; for the id one past the slot table the bound `>` of src/dms/dms.cpp:417 is modelled as written, and the word behind the table is read as a slot.
- Ixm.BucketManager.FindIndex: the object holds keys by value; the index with pointers, PointerKeys, is modelled on values, with its scan loop.
- WoCompare.TotalPreorder: does not cover doubles, where rounding breaks transitivity; ints and longs are compared through any order-preserving rounding that is exact up to 2^53, and of strcmp and memcmp only the sign is kept.
- WoCompare.TotalPreorder: compares decoded trees, not bytes under two cursors; BsonRead.DecodeEncode is what relates the two.
- Ordering.Make: takes a word with lawful operations as a parameter; Ordering.BitsLawful instantiates it.
- BsonBuild.Build: an exception is a flag that stops all further writes, the buffer included; the builder of a code's scope is one of its own.
- EmbeddedBuilder.DottedToNested: requires the document to be no longer than BSONObj allows, as every BSONObj is; fields appended as they are count as parts of it. Above the safe size, where the buffer may grow past its 64 MB, it does not say whether there is an exception unless a sub-object is too long.
- BsonValid.BuiltValid: says nothing of bytes no builder made, for which the code promises nothing.
- Json.FromJsonPrint: doubles, dates, regular expressions, binary data, references and object ids are not printed by the model, and read as a failure; so do nested objects whose first name starts with a dollar sign.
- JsonBuild.ReadJson: of a text that does not read only the failure is kept, not the message, and not the bytes built until then; the stack of builders is the stack of calls.
- Md5.DigestOf: the 64 steps of the block function are a parameter.
- Base64.DecodeTo: requires a length that is a multiple of 4, as the code asserts.
- The client, command dispatch, the message format, object ids, nonces, time helpers and atomic integers.
