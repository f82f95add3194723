# A verified model of the XML editor, the HTTP framing, the queues and the acceptor

The repository holds an XML editor (`CMarkup`) and the parts of a network library. This project models four of its
components in Dafny and proves how they behave.

**The XML editor.** A `CMarkup` object holds one flat text and an index into it: an array of `ElemPos` records with the
offset, the lengths and the level of each element, and with parent, child, next and previous links. An edit splices the
text and then repairs the index in place. The index is a cache; it is right when it is what the parser would build from
the text. The class `Markup.CMarkup` has the fields of the original and a ghost tree, `Content`, whose leaves are the
pieces of the text. `Represents` says that the text is the rendering of the tree and that every record and link is that
of the tree. Around it:

- the tokenizer (`Token`, `Cursor`), a state machine over characters, with the grammar that it keeps to (`Grammar`,
  `Cutting`), and the reference parser (`Content`);
- the iterative walks `x_Adjust` and `x_ReleaseSubDoc` against recursive specifications, and the sibling lists
  (`Index`, `Links`);
- the parser with its tag stack and its repair of elements without end tags (`ParseStack`, `ParseIndex`, `ParseState`),
  what it finds in any text (`Repairs`, `Lawfulness`, `StartTags`), and what a repair leaves in the index (`ParseLinks`);
- the edits: adding an element (`AddElem`, `NewElem`), setting data (`SetData`), removing (`RemoveElem`), setting an
  attribute (`Attributes`, `SetAttrib`), with the effect of a splice on the records in `Effect`, and what each call does
  to elements and their neighbours in `Calls`, and to the text in `NewTexts`;
- the cursor (`Position`, `Navigate`), saved positions (`SavedPos`, `SavedRuns`), the segmented array (`ElemPosTree`),
  and whole sessions on the object (`Play`);
- escaping (`Escaping`, `Entities`) and what references stand for (`References`), CDATA (`CData`), reading data
  (`GetData`, `MixedData`), UTF-8 and UTF-16 (`Utf8`, `Utf8Patterns`).

What the parser makes of a text with errors is a function of the text, `Repairs.Repaired`. `Repairs.Lawful` describes it
without a stack, and `Lawfulness.RepairedIff` says that no other content fits that description; `ParseElem` ensures that
the content it finds is that one, for every text. An element without an end tag loses its content, which moves up
behind it; the mark for that, the levels and the links are stated as the repair leaves them, and `ParseState.IndexedIff`
says exactly when they are those that edits rely on.

Every edit and every move of the cursor ensures `Valid()`, which includes `Represents`, and `Saving()`, which says that
saved positions stand for elements of the document, and that the content and the cursor change as the function
`Runs.Apply` says; `SetAttrib` does so unless it strays, that is, writes outside the start tag that it is to change.
`InStep.ParsedIff` says for every text what the reference parser makes of it: content is the parse of its text exactly
when it is a well-formed document (`WFDoc`). So the maintained index is the one the parser would build exactly when the
content is such a document (`InStepIff`).

The calls do not check what they write, so the theorem about runs is an equivalence: the document stays well-formed all
the way exactly when every call's `Guard` holds (`Runs.RunGood`). `Guard` is computed from the state before the call. It
says that a new name makes an element; that the tag of a parent that must be split does not end with `//>`; that
`x_SetAttrib` writes inside the start tag and leaves one start tag of that element; that a removal does not bring an
instruction `<?>` to the start of the document; and that no element is put in front of a longer instruction that begins
so. `Session.RunInStep` and `Session.GuardNeeded` compare the index with what the parser leaves of the text, which may be
a mark for ill-formed text, and the method `Reparse` parses the text again and compares. `Playing.Session` states the
same of the object, from the text that is read to the text that any such calls leave. `SavedRuns` follows saved positions
over such runs, and `StrictNames` compares `IsWellFormed` with the rule that the names of tags are equal.

**HTTP framing.** `TcpClient.SplitHttpPacket` collects bytes in a bounded buffer and cuts frames out of it. The header
parser does not know how many bytes have been received; behind them the buffer holds what earlier packets left. `Http`
states the frames on the received bytes alone and shows how far the decisions of the code agree. No stream loses a byte;
the frames are those of the stream when its `Content-Length` headers have a value that is not blank (section 8.6 of RFC
9110), and `GivenIff` shows that this condition cannot be weakened. `HttpMessages` writes messages out line by line:
a stream of them is cut into exactly these messages (`StreamIs`). `atoi` is that of the Microsoft runtime, where a
number that does not fit becomes the nearest one that does.

**Pool and queues.** `FixedMemoryPool` keeps the list of its free blocks in the blocks. Memory is an array with a cell
for each byte, so that a write over a pointer would destroy it. `MessageQueue` runs over it as a bounded queue of
byte strings. `PackageQueue` and `FixedObjectPool` are state machines for any number of threads: a step is a lock
region or a wait for the semaphore, and both use the discipline proved once in `Gate`.

**Acceptor.** `TcpAcceptor` counts pending accepts and deletes itself when the count falls to zero. The model is a state
machine over the accesses to what callbacks, the thread in `Initialize` and the service share (the count, the accepts
with the system, the socket, the mark of the stop and the life of the object), from the first accept that `Initialize`
posts. The release and `PostCancel`, which hold no lock, go one access at a time.

The model is that of a build with STL strings of one-byte characters and `\r\n` for a line end, with document
flags 0. Strings hold no zero bytes, and reading behind the end gives one.

## What the code does that one might not expect

- At offset 0 `<?>` is not taken for an instruction, elsewhere it is (`InStep.InstructionMoves`).
- Splitting `<a//>` leaves `<a/>`, still an empty-element tag (`InStep.SlashesSplit`).
- An end tag `</a>` closes an element `a=b`, because names are compared as path words (`StrictNames.LaxElement`).
- `x_SetAttrib` on `<a "x>` writes behind the element, on `<a b>` it replaces the name, and on `<a b= />` it takes away
  the slash that makes the element empty (`SetAttrib.LoneQuoteStrays`, `NameReplaced`, `SlashReplaced`).
- The repair of an element without an end tag leaves the previous link of the first element of the list and the first
  marks of the children as they were, so that `<a><b><c/></a>` gets an index that is not linked as edits need it
  (`Lawfulness.RepairDisturbs`, `ParseState.IndexedIff`).
- `DetectUTF8` looks only at the top bit of the bytes behind the first of a sequence, and lets a sequence begin with
  10xxxxxx, against its own comment (`Utf8Patterns.LooseAccepted`, `DocumentedIff`).
- An empty `Content-Length` value makes the length depend on what follows the headers (`Http.GivenIff`).
- Text nodes also end behind a `>`, and white space between tags is no data.
- A search for a child element without a main position, in a parent without elements, can end on a root element with
  main position 0; attributes cannot be set there.
- Stale bytes in the receive buffer can turn a wait into an error (`Http.StaleError`), though never into a packet.
- An acceptor that has deleted itself is still told to cancel when the service stops (`TcpAcceptors.StrayCancel`), and
  it can delete itself while `Initialize` is still posting accepts (`TcpAcceptors.EarlyRelease`), or between two accesses
  of `PostCancel`, whatever the count was when that began (`TcpAcceptors.StrayAlways`). When `Initialize` fails, the
  service and a callback can both delete it (`TcpAcceptors.FailedEarly`).

## Model

| member | source | states |
|---|---|---|
| Token.NodeProgress | Baselib/Markup.cpp:2325-2621 | cutting a node off a non-empty text takes at least one character, and none behind its end; a node is text exactly when it does not begin with `<`; a markup node ends with `>` |
| Token.NodeLocal | Baselib/Markup.cpp:2325-2621 | what follows a complete tag, comment, instruction, CDATA section or DOCTYPE does not change how it is cut, and its offset matters only through the quirk for `<?>` at offset 0 |
| Cursor.NodesAreDocument | Baselib/Markup.cpp:2325-2621 | repeated cuts divide every document, well-formed or not, into non-empty contiguous nodes whose concatenation is the document |
| ParseState.NodeTypes | Baselib/Markup.cpp:2325-2621 | the end-of-document type is returned exactly at the end of the document |
| Cursor.TokenPos.ParseNode | Baselib/Markup.cpp:2325-2621 | the character loop computes the node of the specification `NodeIn`, and leaves the token at the tag name and the cursor behind the node |
| Cutting.FrontIs | Baselib/Markup.cpp:2325-2621 | the scan cuts every text as the grammar says, which names the characters that end a node and knows no scan: type and length of every node, and name and empty-element mark of every start tag |
| Cutting.CommentEnds | Baselib/Markup.cpp:2576-2583 | what begins with `<!--` is a comment exactly when `-->` follows, and goes on through the first one, which may share the dashes of the beginning |
| Cutting.InstructionEnds | Baselib/Markup.cpp:2549-2550 | what begins with `<?` is an instruction exactly when `?>` follows, and goes on through the first one; the question mark may be the same one, but not at the start of the document |
| Cutting.SectionEnds | Baselib/Markup.cpp:2584-2591 | what begins with `<![C` is a CDATA section exactly when `]]>` follows, and goes on through the first one |
| Cutting.EndTagEnds | Baselib/Markup.cpp:2545-2546 | what begins with `</` is an end tag exactly when `>` follows, and goes on through the first one |
| Cutting.StartTagEnds | Baselib/Markup.cpp:2457-2515 | a start tag goes on through the first `>` outside quoted values, its name to the first separator, and it is that of an empty element exactly if a slash stands in front of the `>` that no value without quotes ends with |
| Cutting.DocTypeEnds | Baselib/Markup.cpp:2592-2602 | a document type goes on through the first `>` outside the tags, comments, instructions and declarations in it, each of which ends as the grammar says |
| Cutting.TextEnds | Baselib/Markup.cpp:2604-2615 | white space in front of a tag or of the end is a node of its own; other text goes on to the next `<` or through the next `>` |
| Cursor.TokenPos.FindAny | Baselib/Markup.cpp:1120-1129 | the cursor goes to the first character that is no white space |
| Cursor.TokenPos.FindName | Baselib/Markup.cpp:1130-1141 | the token is the next word up to a character that ends any name |
| Cursor.TokenPos.WhitespaceToTag | Baselib/Markup.cpp:1119 | white space is passed over only when a tag or the end follows |
| Cursor.TokenPos.FindAttrib | Baselib/Markup.cpp:1160-1295 | the loop finds what `FindFrom` specifies: the token is the value of the first attribute of that name, or the cursor is where a new one goes |
| Tags.NameOfTag | Baselib/Markup.cpp:2325-2621 | the name of a start tag runs from behind `<` to the first white space, `/` or `>` |
| Tags.NameIff | Baselib/Markup.cpp:2325-2621 | for a name free of separators, `<name/>` is an empty-element tag exactly when the name begins with a letter, `_`, `:` or a character above 0x60 |
| Tags.SplitTagIff | Baselib/Markup.cpp:4792-4817 | taking the `/` out of an empty-element tag leaves a plain start tag of the same name, exactly when the tag does not end with `//>` |
| Tags.TagToken | Baselib/Markup.cpp:2325-2621 | a tag taken out of a document is the same tag, with the same name |
| Content.ParseOfRender | Baselib/Markup.cpp:4028-4176 | parsing the text of well-formed content gives that content back, wherever the text stands |
| Content.RenderOfParse | Baselib/Markup.cpp:4028-4176 | whatever parses without error is well-formed content that renders to the text it was parsed from |
| Content.ParseDocIff | Baselib/Markup.cpp:3993-4176 | for a text that does not begin with `<?>`, content that renders to it is its parse exactly when it is well-formed |
| InStep.ParsedIff | Baselib/Markup.cpp:3993-4176 | for every text, content is its parse exactly when it is a well-formed document, where a first instruction that begins with `<?>` is one that is longer |
| InStep.ParseSound | Baselib/Markup.cpp:3993-4176 | whatever a whole text parses to is a well-formed document with that text |
| ParseStack.FinishClose | Baselib/Markup.cpp:4096-4173 | an end tag closes the innermost open element if the names match, and otherwise the document is not well-formed |
| Markup.CMarkup.FindMatch | Baselib/Markup.cpp:4096-4105 | the search over the tag stack finds the innermost open element that the end tag matches, and no element above it matches |
| Markup.CMarkup.Adopt | Baselib/Markup.cpp:4149-4156 | the children of an element without an end tag move up behind it, in order; no other record changes |
| Markup.CMarkup.EndUnended | Baselib/Markup.cpp:4134-4167 | the repair of one element without an end tag: what its record and the records of its children become |
| Markup.CMarkup.MendTo | Baselib/Markup.cpp:4130-4168 | every open element above the matching level is repaired, innermost first: the list that is left is that of `Mended`, the stack that of the levels below, and the elements there keep their records |
| Markup.CMarkup.StoreEnd | Baselib/Markup.cpp:4113-4127 | before the repairs the record of the element that is closed gets its length and the length of its end tag, and the document is ill-formed if elements are open above it |
| Markup.CMarkup.AppendElem | Baselib/Markup.cpp:4060-4079 | a new element is linked in as last child, which keeps the sibling ring and the first mark |
| Markup.CMarkup.StartElem | Baselib/Markup.cpp:4055-4095 | a start tag or empty-element tag gets the next slot, is linked in, and is open or complete |
| Markup.CMarkup.EndElem | Baselib/Markup.cpp:4113-4173 | an end tag closes the element at the level found: the elements above are repaired, exactly those below stay open, and the element with the repaired list as its content is the last one of its own list; the document is ill-formed if there were any above |
| Markup.CMarkup.EndTag | Baselib/Markup.cpp:4096-4173 | an end tag leaves open what `AfterEndTag` says: it closes the innermost open element that it matches, or stands alone, and then it matches none; the document is ill-formed from then on exactly when it stands alone or leaves an element without an end tag |
| Markup.CMarkup.WrongNode | Baselib/Markup.cpp:4106-4125 | a bad node or a lone end tag makes the document ill-formed and marks the element around it |
| Markup.CMarkup.EndDocument | Baselib/Markup.cpp:4128-4169 | the elements still open at the end are repaired, innermost first, and what they become is the document, with its index |
| Markup.CMarkup.ParseElem | Baselib/Markup.cpp:4028-4176 | for every input the parse ends with the content `Repaired(doc)` and its index: slots in document order, parent, child and next links, previous links and first marks as the repairs leave them, start, lengths and level of every element, and the mark for a missing end tag on exactly the elements that lack one; ill-formed exactly when the reference parse fails, and otherwise with the content of that parse and every link and record right |
| Markup.CMarkup.ParseDocument | Baselib/Markup.cpp:3993-4026 | `x_ParseDoc`: the same for the document, and success exactly when it parses and has one root; no position is saved any more |
| Repairs.RepairedLawful | Baselib/Markup.cpp:4028-4176 | of every text, ill-formed or not, the content found is the whole text and keeps to the law: each tag, comment and so on is one node, an end tag closes the innermost element open at it with its name, an end tag alone has the name of none, and an element without an end tag has no content and stays open for what follows in its list |
| Lawfulness.RepairedIff | Baselib/Markup.cpp:4028-4176 | no other content does: content keeps to the law and is the whole text exactly when it is, but for the numbers of slots, what the parser finds |
| Repairs.RepairParses | Baselib/Markup.cpp:4028-4176 | when the reference parse succeeds, the parser with its repair finds what that one finds, and every element is ended |
| StartTags.EveryStartTag | Baselib/Markup.cpp:4055-4095 | of every text the elements are its start tags: there are as many slots as start tags among the nodes that the tokenizer cuts, and the element in each slot begins at the start tag with that number |
| ParseState.IndexedIff | Baselib/Markup.cpp:4130-4168 | after the parse of any text, rings and first marks are those of a linked tree exactly when no list has an element behind one without an end tag, and the whole index is one that edits can work on exactly when every element is ended |
| Lawfulness.RepairDisturbs | Baselib/Markup.cpp:4149-4156 | in `<a><b><c/></a>` the element `c` comes to stand behind `b`, and the links are not those of a linked tree |
| ParseState.OneRoot | Baselib/Markup.cpp:4012-4022 | the first-child link of the virtual parent and the next link there tell whether there is exactly one root |
| Markup.CMarkup.IsWellFormed | Baselib/Markup.cpp:2681-2696 | as read or after edits: true exactly when the document has not been found ill-formed and has one root; for a well-formed document that is what parsing its text again would give |
| StrictNames.ClosesIff | Baselib/Markup.cpp:1142-1147 | an end tag closes a start tag exactly when the names are equal or the name in the start tag goes on with `=`, `[` or `]` |
| StrictNames.LaxElement | Baselib/Markup.cpp:4096-4105 | `<a=b></a>` is an element |
| StrictNames.WellFormedIff | Baselib/Markup.cpp:2681-2696 | `IsWellFormed` accepts a text exactly when it is a document with equal names in its tags and one root, provided that no element has a name that goes on so behind the name in its end tag |
| Markup.CMarkup.SetDoc | Baselib/Markup.cpp:2671-2679 | any text becomes the document, with the content and the index that the parser finds in it; a document that is not ill-formed is ready for every edit |
| Markup.CMarkup.constructor | include/tool/Markup.h:270 | a document given at construction is indexed like one given to `SetDoc` |
| Index.AdjustedAt | Baselib/Markup.cpp:4658-4716 | what `x_Adjust` does to any slot: elements around the edit and the virtual parent become longer by the shift, elements after it start later by it once (descendants of the edited element only if asked), no slot is in both groups, nothing else changes |
| Markup.CMarkup.Adjust | Baselib/Markup.cpp:4658-4716 | the iterative walk terminates and computes the recursive adjustment |
| Effect.AdjustRepairs | Baselib/Markup.cpp:4658-4716 | an index whose records are those of the text before an insertion is right for the text after it once adjusted |
| Effect.AdjustRemoves | Baselib/Markup.cpp:4658-4716 | the same for a removal, adjusted with `bAfterPos` |
| Represent.ElementAt | Baselib/Markup.cpp:916-950 | in a represented document the start tag, content and end tag of an element stand where its record says |
| Links.LinkedChain | Baselib/Markup.cpp:926-950 | the sibling rings and first marks of a tree give the parent, child and next links the walks follow |
| Links.ReleaseListAt | Baselib/Markup.cpp:5268-5294 | a release marks exactly the slots of the subtree and leaves all others alone |
| Links.ReleaseListOrder | Baselib/Markup.cpp:5268-5294 | the released slots stand once each on the list of deleted slots, in the reverse of post-order, in front of the older ones |
| Markup.CMarkup.ReleaseUpward | Baselib/Markup.cpp:5281-5287 | released elements climb to the next element still to be visited |
| Markup.CMarkup.ReleaseSubDoc | Baselib/Markup.cpp:5268-5294 | the walk that overwrites its own next links releases the subtree as the recursive specification does, and returns the original next sibling |
| Markup.CMarkup.LinkBehind | Baselib/Markup.cpp:5168-5180 | linking in after a sibling, record by record |
| Markup.CMarkup.LinkInFront | Baselib/Markup.cpp:5181-5200 | linking in as first child, record by record |
| Markup.CMarkup.LinkElem | Baselib/Markup.cpp:5148-5202 | the children of the parent become the old list with the new element at its place, with mutual next and previous links, the ring and the first mark; only neighbours and parent change |
| Markup.CMarkup.LinkAround | Baselib/Markup.cpp:5210-5231 | the neighbours of an element are linked around it, record by record |
| Markup.CMarkup.UnlinkElem | Baselib/Markup.cpp:5204-5234 | the children become the old list without the element, with ring and first mark right, and the element and its descendants are released |
| ElemPosTrees.ElemPosTree.AllocElemPos | Baselib/Markup.cpp:3983-3991 | the records, read as one sequence, are lengthened to the size `AllocSize` and stay as they were |
| ElemPosTrees.ElemPosTree.GetFreePos | Baselib/Markup.cpp:3976-3981 | the slot given out is new and has a record, also when growing is capped at one more segment; the sequence of records is lengthened as `FreeSize` says |
| ElemPosTrees.ElemPosTree.GrowElemPosTree | Baselib/Markup.cpp:1002-1059 | growing keeps every record, allocates every slot below the new size, and does not copy a whole segment |
| Markup.CMarkup.GetFreePos | Baselib/Markup.cpp:3976-3981 | the same on the flat sequence that the rest of the model uses, which grows exactly as the tree does |
| Markup.CMarkup.AllocElemPos | Baselib/Markup.cpp:3983-3991 | the flat sequence is lengthened to the size `AllocSize`, as the records of the tree are |
| NewElem.NewShape | Baselib/Markup.cpp:4900-4952 | whatever the name and value, the pieces that `x_AddElem` builds have the shape the index relies on |
| NewElem.NewElemOk | Baselib/Markup.cpp:4900-4952 | for a name free of separators, the pieces are an element exactly when the name is valid |
| NewElem.WFFilled | Baselib/Markup.cpp:4792-4829 | giving content to an element keeps the document well-formed exactly when the content is and a tag that must be split can be |
| NewElem.AddedWF | Baselib/Markup.cpp:4865-4980 | `x_AddElem` keeps a well-formed document well-formed exactly when the new pieces are an element and a parent tag that must be split can be |
| Markup.CMarkup.GetTagName | Baselib/Markup.cpp:4256-4266 | the name read from the text at the recorded start |
| Markup.CMarkup.BuildElem | Baselib/Markup.cpp:4900-4952 | the text of the new element and the lengths in its record |
| Markup.CMarkup.StartOfNew | Baselib/Markup.cpp:4720-4785 | the offset chosen for the new element is that of its place in the list, behind white space up to the next tag |
| Markup.CMarkup.Predecessor | Baselib/Markup.cpp:4758-4778 | the sibling to link behind is the one in front of that place |
| Markup.CMarkup.SplitParent | Baselib/Markup.cpp:4792-4817 | an empty-element tag is split into a pair of tags around the new content; its record keeps up |
| Markup.CMarkup.InsertNew | Baselib/Markup.cpp:4718-4855 | the document becomes the old text with the new element at its place, and the returned lengths are those of the change |
| AddElem.AddedRepresents | Baselib/Markup.cpp:4954-4974 | after `x_Adjust` the index represents the document with the new element |
| Markup.CMarkup.EnterElem | Baselib/Markup.cpp:4881-4972 | up to `x_LinkElem`: new text, new links, and records that are still those of the old text |
| Markup.CMarkup.AddElem | Baselib/Markup.cpp:4865-4980 | AddElem, InsertElem, AddChildElem and InsertChildElem: one new element with these tags and this content stands directly beside the current one, or child, as asked, and is the current one now; the text is the old one with it and its line ends; the index stays in step with the document, the rest is as `Apply` says, and saved positions stay |
| Markup.CMarkup.AddElemOf | Baselib/Markup.cpp:4865-4980 | `x_AddElem`: the index stays in step with the document, and content, cursor and result are those of `Apply` |
| Calls.AddedIs | Baselib/Markup.cpp:4865-4980 | the new element is in a slot of its own, directly in front of the sibling given or directly behind it, or at the front or end of the list, with the tags and the content given; no other slot is taken |
| NewTexts.TextOfAdd | Baselib/Markup.cpp:4718-4855 | the text with the new element, written out: in front of the sibling or behind it, or of the content of the parent, after white space that ends at a tag, with a line end behind it; on a line of its own between two tags without content; and an empty-element tag split in two |
| Calls.GetAfterAdd | Baselib/Markup.cpp:4865-4980 | an element that has been added reads as the name and the text that it was added with, and is empty exactly when there was no text |
| Playing.AddTwo | Baselib/Markup.cpp:4865-4980 | an element is added and then a child: the child stands below the element, alone, and both positions are current |
| CData.EncodeCDATASection | Baselib/Markup.cpp:4420-4436 | the loop computes the specified encoding |
| CData.SectionsWF | Baselib/Markup.cpp:4420-4436 | the encoding of any text, with any number of overlapping `]]>`, is well-formed content without elements |
| GetData.SectionsBack | Baselib/Markup.cpp:4562-4575 | the sections that encode a text, read one after the other, give the text |
| GetData.DataBack | Baselib/Markup.cpp:4446-4490 | what was set as data, escaped or in CDATA sections, is what is read back |
| GetData.GetAfterSet | Baselib/Markup.cpp:4446-4582 | after `x_SetData` on any element without child elements, split tags included, `x_GetData` reads exactly what was set |
| MixedData.Mixed | Baselib/Markup.cpp:4557-4581 | what is read of content without elements, node by node: its runs of text and the insides of its CDATA sections, in order, and nothing of comments, instructions and document types |
| MixedData.ReadMixed | Baselib/Markup.cpp:4492-4582 | `x_GetData` on every such element of a well-formed document: its text unescaped, or, once anything else stands in it, what is gathered from its pieces |
| MixedData.PlainRun | Baselib/Markup.cpp:4568-4580 | a run of text without a `>` is unescaped as a whole, and when it is all white space it is no data |
| SetData.FilledRepresents | Baselib/Markup.cpp:4446-4490 | after `x_Adjust` the index represents the document with the new data |
| SetData.FilledDoc | Baselib/Markup.cpp:4718-4855 | replacing the content is one splice of the text, or the splice that splits the tag |
| NewTexts.TextOfData | Baselib/Markup.cpp:4446-4490 | the text with new data between the tags of an element, an empty-element tag split in two, and nothing else changed |
| Markup.CMarkup.InsertData | Baselib/Markup.cpp:4718-4855 | `x_InsertNew` for data: the text becomes that of the element with new content |
| Markup.CMarkup.SetDataOf | Baselib/Markup.cpp:4446-4490 | succeeds exactly for an element without child elements; then the content is the given data, and otherwise nothing changes |
| Markup.CMarkup.SetData | Baselib/Markup.cpp:4446-4490 | SetData and SetChildData: the element has exactly the new content, when it had no child elements, and the text around it stays; cursor and saved positions stay, the index stays in step, and the rest is as `Apply` says |
| Markup.CMarkup.GetDataOf | Baselib/Markup.cpp:4492-4582 | what is read is the specified reading of the content, and nothing for an element with child elements |
| Markup.CMarkup.RangeText | Baselib/Markup.cpp:4556-4579 | the loop over the nodes of the content computes the specified reading |
| Attributes.TagIsStart | Baselib/Markup.cpp:2325-2621 | a list of attributes, with quoted values or with values without quotes, is one start tag of its own length, whatever the values hold |
| Attributes.FindInTag | Baselib/Markup.cpp:1160-1295 | in such a tag `FindAttrib` finds the value of the first attribute of that name, or the end of the last attribute |
| Attributes.SetThenFind | Baselib/Markup.cpp:4292-4373 | setting an attribute changes the value of the first match or adds one at the end; all other attributes keep their text and order |
| SetAttrib.RestartedWF | Baselib/Markup.cpp:4292-4373 | another start tag keeps a well-formed document well-formed exactly when it is one start tag that the end tag closes |
| SetAttrib.EditedWF | Baselib/Markup.cpp:4292-4373 | on every start tag: `x_SetAttrib` writes inside the tag and keeps a well-formed document well-formed exactly when what it is about to write keeps the tag |
| SetAttrib.SetExact | Baselib/Markup.cpp:4292-4373 | on every start tag, for the text and the records that the call leaves: they are those of the document with another start tag there that the end tag closes, exactly when what it is about to write keeps the tag |
| SetAttrib.StrayLost | Baselib/Markup.cpp:4339-4371 | after a call that strays no content has a start tag at that place with the recorded length, unless text behind the tag was replaced by text of the same length |
| SetAttrib.TagEdited | Baselib/Markup.cpp:4308-4337 | on a list of attributes the condition holds, and the tag becomes the list with the attribute set |
| SetAttrib.LoneQuoteStrays | Baselib/Markup.cpp:1160-1295 | on `<a "x>t</a>` the new attribute is put behind the end tag |
| SetAttrib.NameReplaced | Baselib/Markup.cpp:4308-4320 | on `<a b>`, setting `b` to `x=` leaves no start tag |
| SetAttrib.SlashReplaced | Baselib/Markup.cpp:4308-4320 | on `<a b= />`, setting `b` leaves a start tag without an end tag |
| SetAttrib.RestartedRepresents | Baselib/Markup.cpp:4292-4373 | after `x_Adjust` the index represents the document with the new start tag |
| SetAttrib.AttribBack | Baselib/Markup.cpp:4268-4373 | on a list of attributes the value that `x_SetAttrib` has written is what `x_GetAttrib` reads |
| SetAttrib.SetThenGet | Baselib/Markup.cpp:4268-4373 | and so on every start tag, when the call writes inside it and the attribute either has a value or is new with a name that can be found |
| Markup.CMarkup.AttribText | Baselib/Markup.cpp:4308-4337 | on every tag: the text to splice in, its place, and how much it replaces, from what `FindAttrib` finds |
| Markup.CMarkup.SetAttribOf | Baselib/Markup.cpp:4292-4373 | on every tag: the text and the records after the call, and, when it does not stray, the new start tag with the index in step |
| Markup.CMarkup.SetAttrib | Baselib/Markup.cpp:4292-4373 | SetAttrib and SetChildAttrib keep the cursor and the saved positions, keep the index in step and do what `Apply` says, unless they stray |
| Markup.CMarkup.GetAttribOf | Baselib/Markup.cpp:4268-4282 | the unescaped text of the attribute that `FindAttrib` finds |
| RemoveElem.RemovedText | Baselib/Markup.cpp:5133-5146 | removing an element takes its text and the white space behind it out of the document |
| NewTexts.TextOfRemove | Baselib/Markup.cpp:5133-5146 | the text without an element and without the white space behind it, when that ends at a tag or at the end |
| RemoveElem.RemovedRepresents | Baselib/Markup.cpp:5133-5146 | after `x_Adjust` and `x_UnlinkElem` the index represents the document without the element |
| Markup.CMarkup.CutElem | Baselib/Markup.cpp:5133-5143 | up to `x_CheckSavedPos`: the document without the element, its index with the released slots marked, and the sibling in front |
| Markup.CMarkup.RemoveElemAt | Baselib/Markup.cpp:5133-5146 | `x_RemoveElem`: the same, and exactly the saved positions survive whose elements are still in the document |
| Markup.CMarkup.RemoveElem | Baselib/Markup.cpp:3871-3883 | RemoveElem: the current element and all below it leave the document, the sibling in front is current if there is one, the other siblings stay in order; the text loses the element and the white space behind it; the index stays in step, and saved positions of elements that are still there stay |
| Calls.RemovedIs | Baselib/Markup.cpp:3871-3901 | exactly the element and what is below it are gone, its siblings are the old ones without it |
| Markup.CMarkup.RemoveChildElem | Baselib/Markup.cpp:3885-3901 | the same for the child position |
| Markup.CMarkup.IntoElem | Baselib/Markup.cpp:3682-3691 | the main position becomes the parent position |
| Markup.CMarkup.OutOfElem | Baselib/Markup.cpp:3693-3702 | the parent position becomes the main position |
| Markup.CMarkup.FindSibling | Baselib/Markup.cpp:4178-4212 | the search by name gives the first matching sibling behind the position |
| Calls.SearchIs | Baselib/Markup.cpp:2853-2890 | the search passes over exactly the siblings behind the position whose names do not match |
| Markup.CMarkup.FindElem | Baselib/Markup.cpp:2853-2870 | the current element is the first one behind the old one, in its list, whose name matches, and stays when there is none |
| Markup.CMarkup.FindChildElem | Baselib/Markup.cpp:2872-2890 | the same for the child position; without a main position the first element is entered |
| Runs.ApplyGood | Baselib/Markup.cpp:4865-4980 | each call keeps a well-formed document well-formed, and writes where it should, exactly when its guard, which a caller can check before the call, holds |
| Runs.RunGood | Baselib/Markup.cpp:4865-4980 | a run of calls keeps the document well-formed all the way exactly when every guard on the way holds |
| Runs.QuietAfter | Baselib/Markup.cpp:2460-2480 | a call whose pieces fit makes a document begin with `<?>` exactly when it removes the first element, with nothing in front of it and only white space between it and such an instruction |
| InStep.IndexUnique | Baselib/Markup.cpp:3993-4176 | an index that represents a document is determined by its content up to the numbering of slots: the same tree, starts, lengths, tag lengths and levels |
| InStep.InStepIff | Baselib/Markup.cpp:3993-4176 | for every text: the parser accepts it and builds the maintained index, up to numbering, exactly when the content is a well-formed document |
| Session.RunInStep | Baselib/Markup.cpp:3993-5146 | after any run of calls whose guards hold on any document that has been parsed, the parser accepts the text and builds the maintained index, up to numbering, and the virtual parent has the length of the document |
| Session.GuardNeeded | Baselib/Markup.cpp:3993-5146 | after one call that does not stray, that is so exactly when the guard of the call holds; otherwise the parser marks the text as ill-formed or builds another index |
| Session.ReadBackIff | Baselib/Markup.cpp:3993-5146 | after any one call: it did not stray and the parser reads its content back, exactly when the guard held before the call |
| InStep.SlashesSplit | Baselib/Markup.cpp:4792-4817 | adding a child to `<a//>` leaves a text that does not parse |
| InStep.InstructionMoves | Baselib/Markup.cpp:2460-2480 | removing an element in front of `<?>` leaves a text that does not parse |
| Markup.CMarkup.Reparse | Baselib/Markup.cpp:3993-4026 | a second object that reads the current text accepts it and has the index that the edits maintained, exactly when the content is a well-formed document |
| Playing.Call | Baselib/Markup.cpp:4292-4980 | one call on the object, whichever it is, goes from a state to the state that `Apply` gives, and leaves of the saved positions those of elements that are still there |
| Playing.Play | Baselib/Markup.cpp:4292-4980 | any sequence of calls on the object in which none strays goes through the states of the specification, saved positions included |
| Playing.Session | Baselib/Markup.cpp:3993-4026 | a text is read, any calls are made whose guards hold, and a second object reads the text that is left: its index is the one that the calls have maintained, up to the numbering of slots |
| SavedPositions.SavedPosMap.SavePos | Baselib/Markup.cpp:3737-3822 | the table refines a map: the name now stands for the current position and no other name is touched |
| SavedPositions.SavedPosMap.FindOrGrow | Baselib/Markup.cpp:3766-3795 | the entry used is that of the name, or the first one not in use, for which a full bucket grows |
| SavedPositions.SavedPosMap.RestorePos | Baselib/Markup.cpp:3824-3858 | found exactly when the name is in the map; the positions are those its entry stands for |
| SavedRuns.RunKeepsParent | Baselib/Markup.cpp:3737-5146 | over a run an element that is in the document at the end has had the same parent all along |
| SavedRuns.RestoreAfterRun | Baselib/Markup.cpp:3737-3858 | after any run that has not removed the saved element, restoring gives the parent, main and child element as they were when the position was saved |
| SavedRuns.SavedAfterRun | Baselib/Markup.cpp:5296-5341 | over any run exactly the names vanish whose elements have been removed |
| Markup.CMarkup.SavePos | Baselib/Markup.cpp:3737-3822 | the name stands for the current position, and every saved position is that of an element of the document |
| Markup.CMarkup.RestorePos | Baselib/Markup.cpp:3824-3858 | the cursor moves to the positions that the name stands for, which are positions in the document, or stays |
| SavedPositions.SavedPosMap.CheckSavedPos | Baselib/Markup.cpp:5296-5341 | exactly the names whose elements were deleted vanish |
| SavedPositions.SavedPosMap.Compact | Baselib/Markup.cpp:5311-5335 | compaction in place keeps the live entries in front and in order, and one mark on the last entry |
| SavedPositions.GrowKeeps | Baselib/Markup.cpp:3780-3794 | a bucket copied to a longer array stores the same names |
| SavedPositions.CompactKeeps | Baselib/Markup.cpp:5311-5335 | a compacted bucket stores the part of the map whose elements are alive |
| Escaping.EscapeText | Baselib/Markup.cpp:2892-2966 | the loop computes the specified escaping |
| Escaping.UnescapeText | Baselib/Markup.cpp:3041-3191 | the loop computes the specified unescaping, with the hash lookup of names |
| References.DecimalReference | Baselib/Markup.cpp:3082-3094 | section 4.1 of XML 1.0: a reference with the decimal numeral of a code point is unescaped to the bytes of that code point, wherever it stands |
| References.HexReference | Baselib/Markup.cpp:3082-3094 | the same with its hexadecimal numeral, in either case of the letters |
| References.NamedReference | Baselib/Markup.cpp:3096-3115 | a name is unescaped to the bytes of the code point that the table, written out entry by entry, gives for it in lower case |
| References.SlotRead | Baselib/Markup.cpp:3096-3115 | the search in one slot of the table finds the first entry with the name, and nothing when there is none |
| References.UnknownLeft | Baselib/Markup.cpp:3096-3176 | a reference to a name that stands nowhere in the table is left as it is |
| References.AmpersandLeft | Baselib/Markup.cpp:3069-3079 | an ampersand without a semicolon among the ten characters behind it is left as it is |
| Escaping.UnescapeOfEscape | Baselib/Markup.cpp:2892-3191 | unescaping escaped text gives the text back, for every text, without `MNF_WITHREFS` |
| Escaping.ShortTableKnowsXml | Baselib/Markup.cpp:2970-2972 | the short table decodes the five names of section 4.6 of XML 1.0 |
| Entities.PredefKnowsXml | Baselib/Markup.cpp:2978-3039 | the full table does too |
| Escaping.EscapeNoLt | Baselib/Markup.cpp:2892-2966 | escaped text holds no `<`, whatever the flags |
| Escaping.EscapeNoQuote | Baselib/Markup.cpp:2892-2966 | with `MNF_ESCAPEQUOTES` it holds no double quote |
| Escaping.EscapeIdempotent | Baselib/Markup.cpp:2892-2966 | with `MNF_WITHREFS`, escaping twice is escaping once |
| Escaping.LeftAloneIff | Baselib/Markup.cpp:2892-2966 | with `MNF_WITHREFS`, a text is left alone exactly when it has no bare special character and every `&` begins a reference |
| References.ReferenceIff | Baselib/Markup.cpp:2923-2947 | a text begins with a reference of `n` characters exactly when these are `&`, one of `#_:A-Za-z` or above 0x7f, any of `_:-.A-Za-z0-9` or above 0x7f, and `;` |
| References.EscapedFront | Baselib/Markup.cpp:2907-2960 | what is written for the front of any text: a reference as it is when they are kept, otherwise the name of a special character, quotes only when asked for, or the character |
| Escaping.EscapeLeavesNoBare | Baselib/Markup.cpp:2892-2966 | so no bare special character and no unreferenced `&` is left |
| Escaping.UnescapeNotLonger | Baselib/Markup.cpp:3041-3191 | unescaping a whole text never makes it longer |
| Entities.PredefNamed | Baselib/Markup.cpp:2978-3039 | the full table meets the one condition of that lemma |
| Utf8.DecodeOfEncode | Baselib/Markup.cpp:3229-3352 | UTF-8 decoding undoes encoding for every code point |
| Utf8.EncodeIff | Baselib/Markup.cpp:3308-3352 | section 3 of RFC 3629: the bytes of a code point are exactly those whose number, marks and remaining bits the standard prescribes |
| Utf8.DecodeOfEncode16 | Baselib/Markup.cpp:3267-3306 | UTF-16 decoding undoes encoding for every code point outside the surrogates |
| Utf8.Encode16Iff | Baselib/Markup.cpp:3267-3290 | section 2.1 of RFC 2781: the units of a code point are exactly those that the standard prescribes, the high bits first |
| Utf8.RoundTrip16 | Baselib/Markup.cpp:3354-3419 | `UTF8To16` undoes `UTF16To8` on well-formed text without zero units |
| Utf8.RoundTrip8 | Baselib/Markup.cpp:3354-3419 | and the other way round |
| Utf8.UTF16To8 | Baselib/Markup.cpp:3354-3385 | into a bounded buffer goes exactly the longest prefix of whole code points that fits, with a zero byte behind it when all fit and there is room; without a buffer the size is counted |
| Utf8.UTF8To16 | Baselib/Markup.cpp:3387-3419 | the units written, or counted, and how far was read |
| Utf8.DetectUTF8 | Baselib/Markup.cpp:3193-3227 | the loop computes the specified detection |
| Utf8.DetectWhole | Baselib/Markup.cpp:3193-3227 | encoded text is detected, with the number of its non-ASCII sequences |
| Utf8Patterns.DetectIs | Baselib/Markup.cpp:3193-3227 | for all bytes: what is detected, told by the values of the first bytes, while of the others only the top bit counts |
| Utf8Patterns.DocumentedIff | Baselib/Markup.cpp:3195-3199 | a text is made of the patterns that the code documents exactly when it is taken for UTF-8 and no sequence in it begins with 10xxxxxx or goes on with 11xxxxxx |
| Utf8Patterns.LooseAccepted | Baselib/Markup.cpp:3229-3262 | two bytes that no documented pattern allows and that are taken for UTF-8 |
| Utf8.DetectCut | Baselib/Markup.cpp:3193-3227 | text cut off inside its last sequence is reported as an error at the end |
| TcpClientHttp.ParseHttpHeaders | Netlib/TcpClientHttp.cpp:41-82 | the headers found are those of the first header block in the whole buffer, received or not |
| TcpClientHttp.GetContentLength | Netlib/TcpClientHttp.cpp:15-25 | the number in the first `Content-Length` header, or 0 |
| HttpMessages.AtoiIs | Netlib/TcpClientHttp.cpp:15-25 | a value that begins with the decimal numeral of a number, behind which no digit stands, is read as that number, or as the largest one that fits |
| HttpMessages.HeadFound | Netlib/TcpClientHttp.cpp:41-82 | of a message written out line by line the parser finds the end of the head and every header, name and value, where it stands |
| HttpMessages.LengthIs | Netlib/TcpClientHttp.cpp:15-25 | the first header whose name is `Content-Length` in any case of the letters gives the length |
| TcpClientHttp.IsConnectionClose | Netlib/TcpClientHttp.cpp:27-38 | some `Connection` header begins with `close` |
| Http.BlockLocal | Netlib/TcpClientHttp.cpp:41-82 | a header block that lies within the bytes two buffers share is read alike from both |
| Http.DecideIff | Netlib/TcpClientHttp.cpp:119-140 | the decision about a buffer is that for its received bytes alone, exactly unless stale bytes complete an illegal header block; then it is an error instead of a wait, never another packet |
| Http.StaleError | Netlib/TcpClientHttp.cpp:119-135 | a buffer in which that happens |
| Http.GivenIff | Netlib/TcpClientHttp.cpp:15-25 | the announced length does not depend on what follows the header block exactly when the value of its `Content-Length` header is not blank |
| Http.Conserved | Netlib/TcpClientHttp.cpp:84-167 | packets and kept bytes, in order, are the stream |
| Http.SplitLater | Netlib/TcpClientHttp.cpp:84-167 | splitting a stream in two steps is splitting it in one |
| Http.SoundPrefix | Netlib/TcpClientHttp.cpp:84-167 | what has arrived of a stream whose frames give their lengths is such a stream |
| Http.FeedIsSplit | Netlib/TcpClientHttp.cpp:84-167 | a run of calls delivers the frames of the whole stream, however it was cut into chunks |
| Http.ChunksDoNotMatter | Netlib/TcpClientHttp.cpp:84-167 | any two chunkings of a stream deliver the same packets and keep the same bytes, which make up the stream |
| Http.PacketsAreFrames | Netlib/TcpClientHttp.cpp:142-148 | every delivered packet is one frame: its own headers announce its size |
| HttpMessages.FrameIs | Netlib/TcpClientHttp.cpp:124-140 | a head that announces `n` bytes makes a packet of its own size and `n`, once they are there, if the packet is not too large |
| HttpMessages.NoLength | Netlib/TcpClientHttp.cpp:15-25 | a head without such a header makes a packet by itself |
| HttpMessages.NegativeLength | Netlib/TcpClientHttp.cpp:125-129 | a negative length is an error |
| HttpMessages.StreamIs | Netlib/TcpClientHttp.cpp:84-166 | a stream of messages, with the beginning of another one behind them, is cut into exactly these messages |
| HttpMessages.ClosesIff | Netlib/TcpClientHttp.cpp:27-38 | the connection is to be closed exactly when a `Connection` header has a value that begins with `close` |
| TcpClientHttp.TcpClient.SplitHttpPacket | Netlib/TcpClientHttp.cpp:84-167 | for every stream what has been delivered and what is kept make it up, and no packet that the code finds is left; on a stream whose frames give their lengths a call that reports no error delivers its frames and keeps the rest, whatever stale bytes the buffer holds, and a call that reports an error has delivered a prefix of those frames, an illegal packet for one of three stated reasons |
| TcpClientHttp.TcpClient.Collect | Netlib/TcpClientHttp.cpp:90-163 | one turn of the outer loop: as many bytes as fit are copied and every whole packet is taken |
| TcpClientHttp.TcpClient.TakePackets | Netlib/TcpClientHttp.cpp:114-163 | the inner loop takes every whole frame out of the buffer, loses no byte, and changes nothing about what the stream amounts to |
| TcpClientHttp.TcpClient.TakePacket | Netlib/TcpClientHttp.cpp:114-163 | one turn of it: the frame at the front is delivered and the rest moves to the front |
| TcpClientHttp.TcpClient.FindPacket | Netlib/TcpClientHttp.cpp:119-140 | the decision about the front of the buffer is the specified one |
| FixedMemoryPools.FixedMemoryPool.constructor | include/tool/FixedMemoryPool.h:36-74 | every block is free, in address order, with the aligned size; without memory there are no blocks |
| FixedMemoryPools.FixedMemoryPool.LinkBlocks | include/tool/FixedMemoryPool.h:61-70 | the loop links each block to the next one and the last one to none |
| FixedMemoryPools.FixedMemoryPool.AllocRaw | include/tool/FixedMemoryPool.h:141-150 | the first free block is handed out, or none when none is free |
| FixedMemoryPools.FixedMemoryPool.FreeRaw | include/tool/FixedMemoryPool.h:152-162 | the block becomes the first free one; only its first word is written |
| Memory.FreeFrame | include/tool/FixedMemoryPool.h:16-19 | writing inside a block that is in use does not disturb the free list |
| MessageQueues.MessageQueue.Init | Baselib/MessageQueue.cpp:24-47 | a pool for messages of the given length, or an error; a second call does nothing |
| MessageQueues.MessageQueue.Push | Baselib/MessageQueue.cpp:87-104 | succeeds exactly when the message fits and fewer messages are queued than there are blocks; then it is the last message |
| MessageQueues.MessageQueue.Front | Baselib/MessageQueue.cpp:68-79 | the address and length of the oldest message, whose bytes are there, or nothing |
| MessageQueues.MessageQueue.Pop | Baselib/MessageQueue.cpp:106-117 | the oldest message goes, or the queue is reported empty |
| MessageQueues.MessageQueue.Clear | Baselib/MessageQueue.cpp:58-66 | no message is left and every block is free |
| MessageQueues.QueuedFrame | Baselib/MessageQueue.cpp:98-100 | writing inside a block leaves the messages in other blocks alone |
| MessageQueues.PartitionPush | Baselib/MessageQueue.cpp:94-101 | queueing the first free block keeps every block either queued or free, with their numbers adding up to the capacity |
| MessageQueues.PartitionPop | Baselib/MessageQueue.cpp:112-114 | and so does setting the oldest one free |
| Gates.EnterOk | Baselib/PackageQueue.cpp:126-127 | storing an item under the lock keeps the count of the semaphore, of threads past it and of a thread about to post equal to the number of items |
| Gates.PostOk | include/tool/Semaphore.h:33-36 | so does posting, which always takes effect |
| Gates.PassOk | include/tool/Semaphore.h:27-31 | so does passing the semaphore |
| Gates.LeaveOk | Baselib/PackageQueue.cpp:140-145 | a thread past the semaphore finds an item, and taking it keeps the count |
| PackageQueues.TakeKeeps | Baselib/PackageQueue.cpp:133-149 | `Pop` past the semaphore finds a packet; taking it keeps ownership and order |
| PackageQueues.StepKeeps | Baselib/PackageQueue.cpp:105-163 | every step of every thread keeps the invariant: the count, one owner for each block, order, and the room of packets |
| PackageQueues.EveryRun | Baselib/PackageQueue.cpp:105-163 | in every interleaving of any number of threads: `Pop` never returns `POP_EMPTY`, each block has one owner, packets are taken in the order in which they were pushed, and no wakeup is lost |
| PackageQueues.PacketsRead | Baselib/PackageQueue.cpp:34-52 | in every interleaving, said of the steps alone: a block holds the data, in order, of the writes to it since it was handed out that found room; the packets popped are the first of those pushed, as they were at the push; and a reader reads what was written |
| FixedObjectPools.StepKeeps | include/tool/FixedObjectPool.h:31-50 | no step takes from an empty list, and each keeps the invariant |
| FixedObjectPools.EveryRun | include/tool/FixedObjectPool.h:31-50 | in every interleaving no object is taken from an empty list, and each object is either free or in use |
| TcpAcceptors.StepKeeps | Netlib/TcpAcceptor.cpp:140-233 | every access of every callback keeps the pending count equal to the outstanding accepts plus what callbacks have not yet decremented |
| TcpAcceptors.ReleaseAlone | Netlib/TcpAcceptor.cpp:226-232 | at every access of the callback that releases the acceptor it is the last one, with no accept outstanding |
| TcpAcceptors.OpenKeeps | Netlib/TcpAcceptor.cpp:80-90 | while `Initialize` posts, every access of its thread and of callbacks keeps the count right, and says whether the acceptor is to be released too early |
| TcpAcceptors.InitializeIff | Netlib/TcpAcceptor.cpp:80-104 | when `Initialize` succeeds, the acceptor satisfies the invariant of the later steps, whatever completed meanwhile, exactly when the count did not fall to zero before the last accept was posted |
| TcpAcceptors.EarlyIff | Netlib/TcpAcceptor.cpp:224-232 | a callback makes it fall so exactly when it is alone: more accepts are to be posted, none is with the system or being posted, and no other callback is under way |
| TcpAcceptors.EarlyRelease | Netlib/TcpAcceptor.cpp:80-90 | with two accepts to post that can happen |
| TcpAcceptors.FailedIff | Netlib/TcpService.cpp:127-134 | when `Initialize` has failed and the service deletes the acceptor, no accept is left with the system, no callback is under way and none has deleted it already, exactly when the count is zero and had not fallen to zero before |
| TcpAcceptors.FailedEarly | Netlib/TcpAcceptor.cpp:224-232 | a run with two accepts to post after which the count is zero and nothing is with the system, but the service and a callback both delete the acceptor |
| TcpAcceptors.EveryRun | Netlib/TcpAcceptor.cpp:80-233 | in every interleaving, from the first accept posted, the acceptor is released at most once, and then nothing is outstanding; a callback that began after the stop has lowered the count by exactly one |
| TcpAcceptors.RunEnds | Netlib/TcpService.cpp:339-344 | after the stop only a bounded number of steps is left |
| TcpAcceptors.ClosedEnds | Netlib/TcpAcceptor.cpp:140-165 | once the socket is closed only a bounded number of steps is left, even while the service goes on |
| TcpAcceptors.SocketClosed | Netlib/TcpAcceptor.cpp:124-232 | an acceptor that has deleted itself has closed its socket, and so has one that `PostCancel` is done with, in every interleaving |
| TcpAcceptors.StopReleases | Netlib/TcpService.cpp:143-166 | when the service has stopped and no step is left, the acceptor has been released exactly once |
| TcpAcceptors.StrayIff | Netlib/TcpAcceptor.cpp:124-138 | in every state that a run reaches, an access of `PostCancel` comes to an acceptor that is gone exactly when, at that access, the count is zero and no callback is releasing it |
| TcpAcceptors.StrayAlways | Netlib/TcpAcceptor.cpp:124-138 | nothing that holds when `PostCancel` begins excludes it: from every such state there is a run in which the callbacks delete the acceptor between its first access and its second |
| TcpAcceptors.StrayCancel | Netlib/TcpService.cpp:156-164 | a run in which the first access of `PostCancel` does |

## Left out

- File mode: `m_pFilePos` is never set by the methods modelled, so reading and writing files in pieces is not here.
- Nodes other than elements as current position, path searches (`FindElem` with a path), `x_SetElemContent`, `x_AddSubDoc` and `RemoveNode`.
- Results and error texts (`GetError`, `x_AddResult`), `x_GetPath`, and other document flags than 0.
- Flags `MNF_WITHNOLINES` and `MNF_WITHNOEND` for new elements: with the first, an insertion into a parent without content records an offset that is not that of the element (lines 4784-4785 against 4825-4829 of Baselib/Markup.cpp).
- Edits of a document that the parser has marked as ill-formed, whose rings and levels may not be those that edits rely on (`ParseState.IndexedIff`).
- Which records carry the mark for bad data (`MNF_ILLDATA`) after a parse: `WrongNode` and `EndUnended` say what they set, the theorems about whole texts do not.
- Width of integers: document offsets are unbounded, and the 22-bit and 10-bit tag lengths are taken to fit.
- `SavedPosMapArray`: several maps, their sizes, and copying them; the one map of an object is there from the start. A name with bytes above 0x7f is hashed by the source with sign extension; any hash gives the same map.
- SetAttrib.SetThenGet: without `MNF_WITHREFS`, and not for an attribute without a value, whose name the code replaces (`SetAttrib.NameReplaced`).
- Markup.CMarkup.SetAttrib: after a call that strays only the text and the records are stated (in `SetAttribOf`), and no further call.
- GetData.GetAfterSet: escaped data without `MNF_WITHREFS`, with which references in the data are decoded when it is read.
- `UnescapeText` of a part of a text: a reference is read past the given length, as the code does, but the theorem on length is about whole texts.
- Encodings of files, `TextEncoding`, `EncodingNameTable` and the conversions to and from locale code pages.
- TcpClientHttp.TcpClient.SplitHttpPacket: for a stream with a blank `Content-Length` value only that no byte is lost and what the code decides; that the callback does not change the buffer is taken for granted; `SetDisconnect` and the log are not modelled.
- `TcpClient.cpp`, `NetCoreIOCP.cpp` and `HttpServiceImplementer.cpp` are not part of this model; whether a client, a buffer or an accept can be had is not determined.
- `PackageQueue` and `MessageQueue` after `Uninit`; a packet that is pushed twice or written to after it was pushed.
- What an access to an acceptor that has deleted itself finds or does; a run of the model goes on as if its fields were still there.
- TcpAcceptors.EveryRun: runs in which the acceptor deleted itself while `Initialize` had more accepts to post, or in which `Initialize` failed and the service deleted it, end there; a stop begins after `Initialize` has returned.
- `PackageQueues`: packets are strings and blocks are numbers, without the headers in memory that `MessageQueues` has.
- Memory exhaustion other than in `malloc`, `AllocRecvPacket` and `Init`, and how long a wait takes.
