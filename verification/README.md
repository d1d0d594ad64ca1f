# Evio, ET and the HPS readers: a verified model

A Dafny model of the code by which the HPS experiment moves events: the Evio data format with its tree
writer and stream parser, the EvioTool reader that fills booked leaves, the bridge between two ET event
systems and the accounting of temporary events, the ET monitoring data, the trigger configuration file, and
the decoders of silicon tracker frames and flash ADC pulses.  `dafny verify dfyconfig.toml` checks all of it.

Where the code works in place, the model does: the writer fills a word array, nodes, banks, leaves, the
reader and the configuration are objects whose methods update their fields.  Each such method is proved against
a function on values (`Ser`, `ParseAt`, `FillAt`, `Records`, `Search`, ...), and the theorems are about those.

| modules | subject |
|---|---|
| `Words` | machine integers; byte, half-word and quad-word views of word buffers |
| `EvioTree`, `EvioParse`, `EvioRoundTrip`, `EvioFormat`, `EvioSize`, `EvioAround`, `EvioAppend` | trees as values; writing, parsing, the format in numbers, sizes, appending |
| `Dom`, `DomHolds`, `DomWriter`, `DomParser` | the mutable node heap, its editing, writer and parser |
| `ToolFill`, `ToolRouting`, `ToolDelivery`, `ToolTypes`, `ToolEcal`, `ToolReader`, `ToolChunks`, `Fadc` | EvioTool |
| `EtPort`, `EtBridge`, `EtTransfer`, `EtTemps`, `EtMonitor`, `EtWire`, `EtStations` | the ET event system |
| `TriggerConfig`, `SvtFrames`, `Pulses` | HPS readers |

## Where the code departs from its intent

The model keeps the code as it is.  The places where that matters, each with the condition under which the
intended property holds:

- The writer compares where it should store the padding of segments (`!=` for `|=`): leaves of one- and two-byte
  data under segments come back exactly if they need no padding (`EvioRoundTrip.RoundTrip`).
- The content type 0x40 is not a container to `evIsContainer` and does not fit a 6-bit field; codes above
  0xf do not fit a tagsegment: such trees are not writable, or not faithful.
- The length predictor throws for composite leaves (`EvioSize.PredictionExact`).
- `appendToBuffer` masks with `0xffff + 1` and takes a segment's length from the wrong buffer
  (`EvioAppend.AppendToOthers`, `EvioAppend.AppendToBank`).
- EvioTool passes word counts for leaves of other than four bytes (`ToolTypes`), and splits text at every
  unprintable byte (`ToolTypes.TextComesThrough`).
- The bridge assigns its source offset instead of accumulating it: batches of three or more passes repeat
  and drop events (`EtBridge.InOrderIff`).  An event too small is lost if its replacement fails after the
  slot was overwritten (`EtBridge.LostExactly`, `EtTransfer.MakeRoom`).
- An event that could not be made temporary keeps an old mark; giving it back lowers the count.  Calls that
  fail or crash half way forget a raise of the count.  The cap holds exactly as long as the former do not
  outnumber the latter (`EtTemps.CapExactly`; `EtTemps.CapMissed` is a run in which it does not).
- A chunk whose first event has a wrong magic word is never given back; a short buffer is never passed
  (`ToolChunks.Reader.Inspect`).
- A CRATE line does not reset the slot, and setting a slot no SLOT line has named creates it blank
  (`TriggerConfig.HonestExactly`).
- The raw SVT data is stored once for each frame (`SvtFrames.SvtBank.PushDataArray`).
- With `NSA` below 4 the crossing search does not move on (`Pulses.EndsExactly`).

## Model

| member | source | states |
|---|---|---|
| `EvioRoundTrip.RoundTrip` | HPSEvioReader_Test_obsolete/evioUtil.cc:2167-2370 | Main result. Parsing what the writer wrote, whatever stands behind it in the buffer, gives back the same tree if and only if the tree is `Faithful`: header fields fit the header the parent dictates, strings are NUL-free and none begins with EOT, one- and two-byte leaves under segments and tagsegments need no padding |
| `EvioRoundTrip.NodeRead` | HPSEvioReader_Test_obsolete/evioUtil.cc:258-395 | The same at any offset and under any parent type; the header always tells the node's true length, faithful or not |
| `EvioRoundTrip.KidsRead` | HPSEvioReader_Test_obsolete/evioUtil.cc:363-374 | The loop over contained banks gives back the list of children if and only if every child is faithful |
| `EvioRoundTrip.HeaderRead` | HPSEvioReader_Test_obsolete/evioUtil.cc:272-309 | The three header layouts: length and recorded padding come back always; tag, num and content type exactly if they fit |
| `EvioRoundTrip.StringsRead` | HPSEvioReader_Test_obsolete/evioUtil.cc:1631-1642 | The string reader undoes the NUL-terminated, EOT-padded layout, for every total length modulo 4, on exactly the NUL-free lists without an EOT-leading string |
| `EvioRoundTrip.PayloadRead` | HPSEvioReader_Test_obsolete/evioUtil.cc:1616-1687 | Every leaf type comes back exactly if its payload fits: 1-, 2-, 4- and 8-byte data, strings, composites |
| `EvioRoundTrip.CompositeRead` | HPSEvioReader_Test_obsolete/evioUtil.cc:1676-1687 | A composite leaf's format tag, format string, data tag, num and words come back if the format tag has 12 bits and the format is NUL-free |
| `EvioRoundTrip.CompositeLayout` | HPSEvioReader_Test_obsolete/evioUtil.cc:2305-2328 | Where a written composite keeps its format, its inner bank header and its data |
| `EvioSize.WriteExact` | HPSEvioReader_Test_obsolete/evioUtil.cc:2216-2223 | The writer succeeds if and only if every length fits its header and `size` is at least `Need`; the result is then the tree's length |
| `EvioSize.PredictionExact` | HPSEvioReader_Test_obsolete/evioUtil.cc:2075-2153 | The length predictor answers for exactly the trees without composite leaves, and then with the length the writer returns |
| `EvioSize.NeedBound` | HPSEvioReader_Test_obsolete/evioUtil.cc:2221 | Each level of nesting holds one word back: the need exceeds the length by at most the nesting height |
| `EvioSize.PredictThenWrite` | HPSEvioReader_Test_obsolete/evioUtil.cc:2011-2033 | Predicted length plus nesting height is always enough room, and the writer returns the prediction |
| `EvioFormat.BankHeader` | HPSEvioReader_Test_obsolete/evioUtil.cc:2185-2190 | A written bank begins with its length less one; then tag, padding, content type and num from the top, the content types and the padding as numbers |
| `EvioFormat.SegmentHeader` | HPSEvioReader_Test_obsolete/evioUtil.cc:2191-2196 | A segment's header: tag, two padding bits that stay zero, content type, length less one |
| `EvioFormat.TagSegmentHeader` | HPSEvioReader_Test_obsolete/evioUtil.cc:2197-2203 | A tagsegment's header, with what a content type above 15 does to the tag |
| `EvioFormat.HeadersRead` | HPSEvioReader_Test_obsolete/evioUtil.cc:272-309 | Any header word of the three layouts built from its fields is read back field by field, the recorded padding of a segment included |
| `EvioFormat.TextBytes` | HPSEvioReader_Test_obsolete/evioUtil.cc:2245-2262 | Every byte of a written text: the joined strings, then nothing but the byte 4 to the end of the word |
| `EvioFormat.JoinedBytes` | HPSEvioReader_Test_obsolete/evioUtil.cc:2250-2257 | Where in the joined bytes each string stands, with a zero behind it |
| `EvioFormat.TextAb` | HPSEvioReader_Test_obsolete/evioUtil.cc:2245-2262 | An instance: the bank of the text ab is 2, 0x00070300, 0x04006261 |
| `EvioFormat.ByteData` | HPSEvioReader_Test_obsolete/evioUtil.cc:2278-2291 | One-byte data lowest byte first, zeros to the end of the word |
| `EvioFormat.HalfData` | HPSEvioReader_Test_obsolete/evioUtil.cc:2265-2277 | Two-byte data lower half first, zero in the last half left over |
| `EvioFormat.WordData` | HPSEvioReader_Test_obsolete/evioUtil.cc:2233-2304 | Four-byte data as it is, eight-byte data lower word first |
| `EvioFormat.CompositeBytes` | HPSEvioReader_Test_obsolete/evioUtil.cc:2305-2328 | Every word and byte of a written composite: tag, type 3 and length of the format, its characters, a zero, fours, then length, tag, type 1 and num of the data |
| `EvioFormat.TextParsed` | HPSEvioReader_Test_obsolete/evioUtil.cc:1631-1642 | Zero-terminated strings filled up with fours, whoever laid them out, are read as the strings if and only if these hold no zero and none begins with a four |
| `EvioFormat.TextBankParsed` | HPSEvioReader_Test_obsolete/evioUtil.cc:258-395 | The same for a whole text bank |
| `EvioFormat.HalvesParsed` | HPSEvioReader_Test_obsolete/evioUtil.cc:1644-1651 | A two-byte leaf whose header records its padding, in a segment or a bank, is parsed to exactly its data |
| `EvioFormat.BytesParsed` | HPSEvioReader_Test_obsolete/evioUtil.cc:1652-1659 | One-byte leaves likewise |
| `DomWriter.ToEvioBuffer` | HPSEvioReader_Test_obsolete/evioUtil.cc:2167-2370 | The in-place writer on the node heap: returns or throws exactly as `WriteResult` says, leaves `Ser(t)` in the buffer, and stores nothing outside the `size` words it was given (two at least) |
| `DomWriter.WriteKids` | HPSEvioReader_Test_obsolete/evioUtil.cc:2217-2223 | The loop over the children, with the running length, against the specification |
| `DomWriter.PutPayload` | HPSEvioReader_Test_obsolete/evioUtil.cc:2229-2337 | All leaf types with their size checks and padding, against `PayloadWords` |
| `DomWriter.PutStrings` | HPSEvioReader_Test_obsolete/evioUtil.cc:2245-2262 | The byte cursor over the string list: fails exactly when the words run out, else leaves the padded strings |
| `DomWriter.PutComposite` | HPSEvioReader_Test_obsolete/evioUtil.cc:2305-2328 | The composite leaf stored piece by piece, terminators and filler overwritten where the pieces meet |
| `DomWriter.PutHeader` | HPSEvioReader_Test_obsolete/evioUtil.cc:2344-2365 | Completing the header gives `Header`; for segments the padding is lost |
| `DomWriter.GetSerializedLength` | HPSEvioReader_Test_obsolete/evioUtil.cc:2039-2154 | The recursive predictor on the node heap, against `PredictedLen`, its exception included |
| `DomParser.ParseBank` | HPSEvioReader_Test_obsolete/evioUtil.cc:258-395 | The recursive stream parser with the tree-building handlers: new nodes hold exactly the tree `ParseAt` reads, hung under the given parent |
| `DomParser.ParseBanks` | HPSEvioReader_Test_obsolete/evioUtil.cc:363-374 | The loop over contained banks, appending children in buffer order |
| `DomParser.NewNode` | HPSEvioReader_Test_obsolete/evioUtil.cc:1566-1587 | A handler's new node: linked to its parent at the end of the child list |
| `DomParser.ParseTree` | HPSEvioReader_Test_obsolete/evioUtil.cc:1542-1560 | A parsed buffer becomes a root whose heap represents `Parse`'s tree, or the same exception; the new nodes are linked and acyclic, so every edit applies to them |
| `Dom.DomNode.Cut` | HPSEvioReader_Test_obsolete/evioUtil.cc:763-773 | The node leaves exactly its parent's list or its tree's root; parent pointers and child lists stay mutually inverse, acyclic if they were |
| `Dom.DomNode.Move` | HPSEvioReader_Test_obsolete/evioUtil.cc:796-806 | Links stay consistent always; the hierarchy stays acyclic if and only if the move failed or the new parent is not in the node's own subtree; a failed move leaves the node cut |
| `Dom.DomNode.AddNode` | HPSEvioReader_Test_obsolete/evioUtil.cc:816-820 | As `Move`, with the container test before anything is cut |
| `Dom.DomNode.AttachTo` | HPSEvioReader_Test_obsolete/evioUtil.cc:801-804 | Hanging a free node under a container closes a cycle exactly if the container lies below it |
| `Dom.DomTree.AddBank` | HPSEvioReader_Test_obsolete/evioUtil.cc:1733-1747 | The node becomes the root of an empty tree or the last child of the root; forest and links are kept, errors included |
| `DomHolds.CutKeeps` | HPSEvioReader_Test_obsolete/evioUtil.cc:763-773 | A node that was cut still holds the tree it held |
| `DomHolds.CutDrops` | HPSEvioReader_Test_obsolete/evioUtil.cc:763-773 | The node it was cut from holds its tree without exactly that child |
| `DomHolds.CutSpares` | HPSEvioReader_Test_obsolete/evioUtil.cc:763-773 | Every node it was not below holds the tree it held |
| `DomHolds.AttachAdds` | HPSEvioReader_Test_obsolete/evioUtil.cc:801-804 | After hanging, the node holds its tree and the container its own with that tree as last child |
| `EvioAppend.AppendToBuffer` | HPSEvioReader_Test_obsolete/evioUtil.cc:57-122 | The new buffer, or the error, word for word, with the two lengths as the source computes them |
| `EvioAppend.AppendParses` | HPSEvioReader_Test_obsolete/evioUtil.cc:57-122 | Main result. Appending a bank to a bank of banks commutes with parsing, whoever wrote the two: if both parse and their combined length fits 32 bits, the result has a consistent length word and parses to the old children followed by the new one, whatever stands behind it |
| `EvioAppend.WrittenAppendParses` | HPSEvioReader_Test_obsolete/evioUtil.cc:57-122 | Of what the tree writer made, the result parses to the longer tree if and only if both inputs are faithful |
| `EvioAppend.AppendRefused` | HPSEvioReader_Test_obsolete/evioUtil.cc:73-99 | Refused are exactly a child of another type than the content's and lengths that do not fit 32 bits together |
| `EvioAround.ParseAround` | HPSEvioReader_Test_obsolete/evioUtil.cc:258-395 | A bank that parses is parsed the same wherever it stands, whatever is before and behind it |
| `EvioAppend.AppendToBank` | HPSEvioReader_Test_obsolete/evioUtil.cc:96-116 | Into a bank of segments or tagsegments the result is right exactly if the child is as long as the low half of the buffer's own length word says |
| `EvioAppend.AppendToOthers` | HPSEvioReader_Test_obsolete/evioUtil.cc:82-86 | Into a segment or tagsegment nothing is ever appended correctly: the mask is `0xffff + 1` |
| `ToolDelivery.NextDelivers` | EvioTool/EvioTool.cc:254-270 | Main result. Reading any buffer the tree parser accepts, after a clear or full erase: the verdict is that of the tree's type and tag; an event not taken leaves every booked leaf empty; of one that is taken, each booked leaf holds exactly the concatenation, in buffer order, of the data routed to it, whatever goes to other leaves, and nothing from before; the reader comes through if all that is routed is clear |
| `ToolDelivery.WrittenEventDelivered` | EvioTool/EvioTool.cc:254-270 | The same for the words the tree writer makes of a faithful tree, whatever stands behind them |
| `ToolEcal.EcalEvent` | HPSEvioReader/HPSEvioReader.cpp:43-55 | An instance in full, for all data: a calorimeter crate between two leaves of words; the leaf of words holds exactly both, in order, the FADC leaf the entries of its slot records with the number of the crate, and nothing of what was there before |
| `ToolDelivery.HoldsTells` | EvioTool/Bank.cc:84-102 | What holding only what was routed means for a leaf of the bank itself or of one below |
| `ToolDelivery.TakenExactly` | EvioTool/Bank.h:124-146 | Which events are taken apart, bit by bit: all without chopping; else banks of banks only, and with as many masks as tags those for which in some pair the bits the mask selects agree with the tag, with one mask likewise for any of the tags, and all if the booking is inconsistent |
| `ToolDelivery.HpsTags` | HPSEvioReader/HPSEvioReader.cpp:43-45 | With the tags and masks of the HPS reader: tags with bit 7, or with bits 0 and 4 |
| `ToolDelivery.EventHoldsOnlyItself` | EvioTool/EvioTool.cc:439-598 | The same for the recursive reader alone, at any offset, depth and parent type |
| `ToolDelivery.FillDelivers` | EvioTool/EvioTool.cc:600-626 | Routing a tree appends to each booked leaf what is routed to it and changes nothing else; the booking stays; crate numbers are those of the last container opened into the bank |
| `ToolDelivery.ClearEmpties` | EvioTool/Bank.cc:84-102 | After `Clear` every booked leaf at every depth is there and empty |
| `ToolRouting.FillAgrees` | EvioTool/EvioTool.cc:439-598 | On every buffer the tree parser accepts, the fast reader leaves the bank tree as routing the parsed tree does, leaf by leaf wherever the tree settles the data, with automatic adding or without; containers nobody booked are skipped without disturbing their siblings |
| `ToolRouting.LeafAgrees` | EvioTool/EvioTool.cc:508-549 | What each leaf type is read as, told from the tree: four-byte data, printable strings and composites as they are, of two- and one-byte data as many values as there are words |
| `ToolRouting.SkipAgrees` | EvioTool/EvioTool.cc:580-584 | The skipping loop comes to the end of every container the tree parser accepts |
| `ToolRouting.UnknownTypes` | EvioTool/EvioTool.cc:594-597 | Content types that are neither a leaf's nor a container's leave everything as it is |
| `ToolFill.RoutedTo` | EvioTool/EvioTool.cc:600-626 | Outside the levels kept a container is pruned, else its content goes to the first bank with its tag and its num, where a num of 0 on either side fits any, else it is added or skipped |
| `ToolFill.FilledInto` | EvioTool/Bank.h:270-287 | Data goes to the first leaf with its tag that is booked for num 0 or its num |
| `ToolRouting.RunsRead` | EvioTool/Leaf.cc:58-69 | EvioTool's string reader undoes the writer's layout on exactly the lists of non-empty printable strings |
| `ToolRouting.StringsAgree` | EvioTool/Leaf.cc:58-69 | Wherever the tree reader finds such strings, the two string readers agree |
| `ToolRouting.LinesRead` | EvioTool/Leaf.cc:58-69 | Any EOT-free text laid out by the writer comes out as its printable runs, for every total length modulo 4 |
| `ToolTypes.TextComesThrough` | EvioTool/EvioTool.cc:516-518 | A written text leaf is read as its printable runs, which are the strings written exactly if those are non-empty and printable |
| `ToolTypes.ShortsComeThrough` | EvioTool/EvioTool.cc:532-535 | Two-byte leaves are read right if and only if they hold at most one value |
| `ToolTypes.BytesComeThrough` | EvioTool/EvioTool.cc:538-541 | One-byte leaves likewise |
| `ToolTypes.QuadsComeThrough` | EvioTool/EvioTool.cc:521-549 | Eight-byte leaves are read right only when empty |
| `ToolTypes.QuadsTaken` | EvioTool/EvioTool.cc:521-549 | How many eight-byte values are taken, which they are, and when the buffer is overrun |
| `ToolTypes.CompositeComesThrough` | EvioTool/EvioTool.cc:336-394 | A composite leaf of slot records padded by 0 to 3 bytes is read as exactly the entries of those records |
| `ToolTypes.CompositeIsClear` | EvioTool/EvioTool.cc:336-394 | Such a leaf of a tree is clear: in an event, the leaf booked for it gets exactly those entries |
| `ToolReader.ReadEvent` | EvioTool/EvioTool.cc:254-270 | `Next` between getting and giving back an event, on bank and leaf objects: clear or full erase, then parse, against `FillEvent` |
| `ToolReader.ReadHpsEvent` | HPSEvioReader/HPSEvioReader.cpp:43-45 | The same on the object tree: such events are taken, all others left |
| `ToolReader.ParseEvioBuff` | EvioTool/EvioTool.cc:409-437 | The top-level tests of type and tag and the parse into the reader itself |
| `ToolReader.ParseBank` | EvioTool/EvioTool.cc:439-598 | The recursive reader on the object tree: new values as `FillAt` says, objects of no other bank touched |
| `ToolReader.ParseContainer` | EvioTool/EvioTool.cc:556-592 | Handler, then the loop into the chosen bank or over the skipped one |
| `ToolReader.ContainerNodeHandler` | EvioTool/EvioTool.cc:600-626 | First matching bank, pruned level, automatically added bank, or null |
| `ToolReader.AddOrFillLeaf` | EvioTool/EvioTool.h:173-195 | Data goes to the first matching leaf, to a new one if those are added, or is not looked at |
| `ToolReader.FindLeafIn` | EvioTool/Bank.h:270-287 | The first leaf with the tag whose num is 0 or equal |
| `ToolReader.FindBankIn` | EvioTool/Bank.h:296-309 | The first bank with the tag whose num is equal, or either num 0 |
| `ToolReader.ClearBank` | EvioTool/Bank.cc:84-102 | The recursive clear, in place, against `Clear` |
| `Fadc.RecordsRead` | EvioTool/FADCdata.h:71-93 | Main result. The composite decoder inverts the encoding of any list of slot records in each of the three formats, channels of differing sample counts included; the bound four bytes short of the padded end is passed behind the last record and never before it |
| `Fadc.Decode` | EvioTool/EvioTool.cc:343-394 | The decoding loop with its shared cursor, against `Records`, overruns included |
| `Fadc.EntriesRead` | EvioTool/FADCdata.h:71-93 | The channels of one slot, read up to exactly the next slot |
| `Fadc.TagsAre` | EvioTool/EvioTool.cc:372-392 | 57601 stands for sampled channels, 57650 for values, 57622 for pulses |
| `Fadc.SlotLaidOut` | EvioTool/EvioTool.cc:363-375 | Every byte of a slot record before its channels, numbers lowest byte first |
| `Fadc.ChannelLaidOut` | EvioTool/FADCdata.h:71-93 | Every byte of a channel in each of the three formats |
| `Fadc.EntryTells` | EvioTool/FADCdata.h:71-113 | Which field of an entry comes from where |
| `Fadc.NegativeCounts` | EvioTool/EvioTool.cc:372-392 | Counts are C ints: with the top bit set a sample count is bad and a channel count means none |
| `Fadc.OtherTags` | EvioTool/EvioTool.cc:363-396 | Under any other tag nothing is decoded, 13 bytes are passed at a time |
| `Fadc.RecordsInLonger` | EvioTool/EvioTool.cc:363-394 | Slot records that end inside a buffer are read the same with more behind it |
| `ToolChunks.Reader.Next` | EvioTool/EvioTool.cc:254-270 | Every call delivers the next good event or says why not; the invariant `Valid` holds after any sequence of calls: at most one chunk is out, delivered from its last index down, given back once after its first event |
| `ToolChunks.Reader.NextNoParse` | EvioTool/EvioTool.cc:164-252 | Ends a valid event first, gets a chunk when none is left, delivers; an event comes twice only after a refused put |
| `ToolChunks.Reader.Inspect` | EvioTool/EvioTool.cc:222-250 | Good buffers are delivered; a wrong magic word is passed over, and with it, at index 0, the give-back of the whole chunk; a short buffer stays for ever |
| `ToolChunks.Reader.EndEvent` | EvioTool/EvioTool.cc:272-304 | The whole chunk goes back with its last event; a refused put changes nothing; an extra call passes an event over |
| `ToolChunks.Reader.GetChunk` | EvioTool/EvioTool.cc:182-188 | A chunk of n events starts at index n-1; after an error none is in hand |
| `ToolChunks.Reader.BetweenChunks` | EvioTool/EvioTool.cc:164-304 | With good buffers and no refusals, between chunks everything gotten was delivered exactly once and given back once |
| `ToolChunks.GoodExactly` | EvioTool/EvioTool.cc:222-243 | A buffer is good if and only if it has eleven words and the eighth, lowest byte first, is 0xc0da0100 |
| `ToolChunks.ReversedAt` | EvioTool/EvioTool.cc:182-188 | Place i of the deliveries of a chunk of n is its event n-1-i |
| `ToolChunks.AllGood` | EvioTool/EvioTool.cc:164-304 | What the chunk account means: deliveries are the chunks reversed, one after the other |
| `EtTransfer.LocalToLocal` | et-14.0-clon/et.s/et_bridge.c:342-552 | Main result. On every way out, each event gotten from the one system was handed to exactly one put there and none dumped, each new event of the other to exactly one put or dump, calls that keep events included in the account; nothing is put or dumped that must be refused; unless a call was refused or kept events, both attachments own what they owned; no new event is lost if the one system's events and all event data fit the other's event size; `ntransferred` copies were sent, of the sources `AllShipped` names, in that order |
| `EtTransfer.ServeBatch` | et-14.0-clon/et.s/et_bridge.c:402-535 | One batch served in passes: the same account, and the copies sent |
| `EtTransfer.ServePass` | et-14.0-clon/et.s/et_bridge.c:416-434 | One pass: new events, copies, put and dump, with the error exits |
| `EtTransfer.CopyPass` | et-14.0-clon/et.s/et_bridge.c:437-505 | The copying loop: all copies ready to be put and every small event set aside, or the pass given up |
| `EtTransfer.Abandon` | et-14.0-clon/et.s/et_bridge.c:455-473 | The way out in the middle of a pass: batch back, copies so far sent, the rest and the spare events dumped |
| `EtTransfer.MakeRoom` | et-14.0-clon/et.s/et_bridge.c:443-474 | Oversize replacement: the two lists become what `Replaced` makes of them; the small event is lost exactly if another one was read and then not made, and never if the size asked for is an ordinary one |
| `EtBridge.LostExactly` | et-14.0-clon/et.s/et_bridge.c:443-474 | The event to be replaced is in neither list afterwards if and only if another one was read and then not made |
| `EtBridge.SevenLost` | et-14.0-clon/et.s/et_bridge.c:443-460 | An instance: the slot holds the event just read, the one set aside is in no list |
| `EtTransfer.CopyOne` | et-14.0-clon/et.s/et_bridge.c:476-503 | Length, priority, control words, byte order and data of one event, swapped or not |
| `EtTransfer.SendPass` | et-14.0-clon/et.s/et_bridge.c:507-532 | Put, then dump; what happens when either is refused |
| `EtTransfer.HandedInOrder` | et-14.0-clon/et.s/et_bridge.c:402-535 | As long as no batch takes more than two passes, the k-th event sent is a copy of the k-th event handed out |
| `EtTransfer.SentTells` | et-14.0-clon/et.s/et_bridge.c:476-503 | Each event sent has its source's length, priority and control words, and its data byte by byte and byte order unless they are swapped |
| `EtBridge.InOrderIff` | et-14.0-clon/et.s/et_bridge.c:441 | The source indices of a batch are 0, 1, 2, ... if and only if there are at most two passes: the offset is assigned, not accumulated |
| `EtBridge.IndicesInside` | et-14.0-clon/et.s/et_bridge.c:441 | Every source index lies in the batch, whatever the sizes of the passes |
| `EtBridge.ThirdPassOutOfOrder` | et-14.0-clon/et.s/et_bridge.c:534 | Three passes of one event each send the second twice and the third never |
| `EtBridge.ByteorderSettled` | et-14.0-clon/et.s/et_bridge.c:487-501 | An event marked with either byte order leaves marked with the one wanted |
| `EtPort.Port.EventsPut` | et-14.0-clon/et.s/et_event.c:1121-1222 | All or nothing: every event must be owned and no longer than its memory; then exactly these pass to the system |
| `EtPort.Port.EventsDump` | et-14.0-clon/et.s/et_event.c:1312-1405 | All or nothing, whatever the lengths |
| `EtPort.Port.EventsNew` | et-14.0-clon/et.s/et_event.c:265-470 | Some new events in the first slots, or none; a failure after the read keeps the events from the caller |
| `EtPort.Port.EventNew` | et-14.0-clon/et.s/et_event.c:79-261 | One new event; the slot is overwritten before the call can fail |
| `EtPort.Port.EventsGet` | et-14.0-clon/et.s/et_event.c:856-1019 | Some events as their writers left them, or a failure that may keep them |
| `EtTemps.CapExactly` | et-14.0-clon/et.s/et_event.c:34-74 | Main result. Over all interleavings of attachments making, putting, getting and dumping temp events, failed creations and dumps, crashes and clean-ups included: live temp events <= the count <= the cap if and only if no more marked events without a file were given back than raises of the count were forgotten or are in progress; with none of these, if and only if none was given back |
| `EtTemps.CountBalance` | et-14.0-clon/et.s/et_event.c:212-243 | In every run, count plus undue give-backs equals live temp events plus raises in progress plus raises forgotten |
| `EtTemps.CountMoves` | et-14.0-clon/et.s/et_event.c:34-74 | The only steps that change the count, and by how much |
| `EtTemps.RefusedOnlyWhenFull` | et-14.0-clon/et.s/et_event.c:43-52 | An event is refused exactly if the count has reached the cap, and counted exactly if it has not |
| `EtTemps.FileMoves` | et-14.0-clon/et.s/et_event.c:1270-1299 | The only steps that make or delete a file, mark or unmark an event |
| `EtTemps.CapHolds` | et-14.0-clon/et.s/et_event.c:34-74 | In runs that never give back an event with an old mark that a failed call left unmade, live temp events <= the count <= the cap in every state, and the count is never negative |
| `EtTemps.CountExact` | et-14.0-clon/et.s/et_event.c:212-243 | In every run whatsoever the count is exact up to the number of such give-backs, and never above the cap |
| `EtTemps.InvariantKept` | et-14.0-clon/et.s/et_event.c:1363-1393 | What every single step keeps: for each event, the raises of the count not yet undone cover the calls in progress and the file that exists |
| `EtTemps.DriftOnly` | et-14.0-clon/et.s/et_readwrite.c:2217-2241 | The count is lowered with nothing owed only when an abandoned, marked event is recycled or restored |
| `EtTemps.CarefulDriftless` | et-14.0-clon/et.s/et_system.c:1888-1903 | A run without such give-backs lowers the count only for raises made |
| `EtTemps.CapMissed` | et-14.0-clon/et.s/et_readwrite.c:2229-2236 | A run in which detaching after a failed call lets one temp event too many be made |
| `EtMonitor.AllRead` | et-14.0-clon/et.s/et_data.c:847-975 | Main result. Decoding the concatenated system, station, attachment and process blocks gives back every field |
| `EtMonitor.BlockRead` | et-14.0-clon/et.s/et_data.c:676-842 | A block's records, and exactly the start of the next block |
| `EtMonitor.RecordRead` | et-14.0-clon/et.s/et_data.c:676-842 | One station, attachment or process record, its strings and counters, and the start of the next |
| `EtMonitor.SystemRead` | et-14.0-clon/et.s/et_data.c:606-671 | The system block with its variable lists of addresses |
| `EtWire.SystemOnWire` | et-14.0-clon/et.s/et_data.c:142-251 | Which field stands in which int of the system block, highest byte first |
| `EtWire.StationOnWire` | et-14.0-clon/et.s/et_data.c:310-380 | The same for a station and its strings |
| `EtWire.AttachmentOnWire` | et-14.0-clon/et.s/et_data.c:463-508 | The same for an attachment |
| `EtWire.ProcessOnWire` | et-14.0-clon/et.s/et_data.c:568-586 | The same for a process |
| `EtWire.CountOnWire` | et-14.0-clon/et.s/et_data.c:447-450 | A block begins with the number of its records |
| `EtMonitor.SparseExactly` | et-14.0-clon/et.s/et_data.c:697-706 | An attachment set comes through if and only if each id stands in its own place |
| `EtMonitor.HalvesJoin` | et-14.0-clon/et.s/et_private.h:985-990 | 64-bit counters survive the split into two ints |
| `EtMonitor.DataGet` | et-14.0-clon/et.s/et_data.c:912-972 | The chained decoders against `ReadAll` |
| `EtMonitor.GetBlock` | et-14.0-clon/et.s/et_data.c:685-745 | A count and as many records, or the overrun |
| `EtMonitor.DataBlock` | et-14.0-clon/et.s/et_data.c:451-517 | The attachment and process encoders: the count, then the records of the places in use, no more than were counted before, and the count put right when fewer are sent |
| `EtMonitor.CountUsed` | et-14.0-clon/et.s/et_data.c:432-436 | The places in use, counted first |
| `EtMonitor.ListUsed` | et-14.0-clon/et.s/et_data.c:314-318 | The used places of an attachment array, in order |
| `EtMonitor.Fill110` | et-14.0-clon/et.s/et_data.c:700-706 | All places cleared, the listed ones set |
| `EtStations.CountStations` | et-14.0-clon/et.s/et_data.c:273-286 | The nested loops count exactly the stations of a well-formed two-level list |
| `EtStations.SendStations` | et-14.0-clon/et.s/et_data.c:304-398 | The flat loop sends exactly those, main list with each parallel group in place, marks exactly the heads of parallel groups, and puts the count right when it may send fewer |
| `EtStations.SentAt` | et-14.0-clon/et.s/et_data.c:304-398 | Station i of group k is sent behind all groups before, in its place, and marked as a head exactly if it is the first of a parallel group |
| `TriggerConfig.LastLineWins` | HPSEvioReader/TriggerConfig.cpp:132-232 | Main result. When every CRATE line is followed by a SLOT line before anything is set, each slot's NSB, NSA, NPEAK, W_OFFSET, W_WIDTH, per-channel thresholds, pedestals and gains are those of the last line applicable to it, whenever the slot came into being |
| `TriggerConfig.HonestExactly` | HPSEvioReader/TriggerConfig.cpp:169-232 | For all files: the values are right after every line if and only if no line sets something for a slot no SLOT line of its crate has named while that slot should have started with something other than zero |
| `TriggerConfig.Where` | HPSEvioReader/TriggerConfig.cpp:69-74 | After any file the crate is 1 if the last line with a crate's name was hps1, 2 if it was hps2, else none; the slot is the one chosen last within a crate |
| `TriggerConfig.OneLineMore` | HPSEvioReader/TriggerConfig.cpp:132-232 | What one more line does, in the lines' own terms: within hps1 it touches crate 1 and no other, within hps2 crate 2; outside nothing |
| `TriggerConfig.LineSets` | HPSEvioReader/TriggerConfig.cpp:165-232 | Which field each kind of line sets, and that it leaves the others |
| `TriggerConfig.ModeOfLastLine` | HPSEvioReader/TriggerConfig.cpp:163-164 | A crate's mode is that of the last mode line within it |
| `TriggerConfig.KnownExactly` | HPSEvioReader/TriggerConfig.cpp:145-162 | The slots that exist are exactly those the lines have named or set |
| `TriggerConfig.CarriedOverSlot` | HPSEvioReader/TriggerConfig.cpp:69-74 | The chosen slot is carried over a CRATE line: a file for which the numbers are wrong |
| `TriggerConfig.EffectiveStep` | HPSEvioReader/TriggerConfig.cpp:165-204 | What one line does to the number a slot uses |
| `TriggerConfig.Configuration.ParseRawData` | HPSEvioReader/TriggerConfig.cpp:45-217 | The interpreter's loop with its crate and slot state, on top of what an earlier parse left |
| `SvtFrames.WellFramed` | HPSEvioReader/SVTBank.h:140-170 | Main result. On well-framed data between one leading and one trailing word, the loops read each frame header and tail exactly once, store exactly the blocks flagged neither header nor tail, in order, and end at the trailing word |
| `SvtFrames.FramesRead` | HPSEvioReader/SVTBank.h:140-170 | The same from any index |
| `SvtFrames.PackedFramesRead` | HPSEvioReader/SVTBank.h:140-166 | Of frames packed field by field, exactly the multisamples whose tail and header flags are both clear are stored, in order |
| `SvtFrames.FlagsRead` | HPSEvioReader/SVTBank.h:75-85 | Bit 29 is the tail flag and bit 30 the header flag, whatever the other fields hold |
| `SvtFrames.SizeRead` | HPSEvioReader/SVTBank.h:58-61 | The 20 bits from bit 8 on are the size of a frame |
| `SvtFrames.SvtBank.PushDataArray` | HPSEvioReader/SVTBank.h:127-171 | The two loops on any data, overruns included; raw data, if kept, is stored once for each frame |
| `SvtFrames.SvtBank.PushSamples` | HPSEvioReader/SVTBank.h:147-155 | The inner loop advancing the shared index |
| `Pulses.SearchRight` | EvioTool/FADCdata.cc:160-171 | Main result. With a dead time and no peak limit the search ends; crossings from index 1 are at least the dead time apart, and every upward crossing is recorded or lies in the dead time of a recorded one |
| `Pulses.SearchFinds` | EvioTool/FADCdata.cc:166 | Only upward crossings are recorded: the sample before lies below the level, the sample itself above |
| `Pulses.SearchMissesNone` | EvioTool/FADCdata.cc:160-171 | Every index whose sample lies above the level and the one before below is recorded or comes less than the dead time behind a recorded one; recorded ones are the dead time apart |
| `Pulses.HitWindow` | EvioTool/FADCdata.cc:174-191 | The window in plain indices, its integral above pedestal, and the first of its largest samples |
| `Pulses.TotalIsSum` | EvioTool/FADCdata.cc:181-183 | What a window's total is |
| `Pulses.RightUnique` | EvioTool/FADCdata.cc:160-171 | There is only one such list |
| `Pulses.LimitedPrefix` | EvioTool/FADCdata.cc:169 | A peak limit yields the first crossings only, but one at least besides a first sample above threshold |
| `Pulses.EndsExactly` | EvioTool/FADCdata.cc:168 | Without a limit the search ends exactly if there is a dead time or nothing to find |
| `Pulses.FindCrossings` | EvioTool/FADCdata.cc:160-171 | The loop that winds its own index forward, against `Search` |
| `Pulses.ComputeMode7` | EvioTool/FADCdata.cc:121-205 | Pedestal, crossings and hits for every number of samples that the pedestal allows; each hit crosses thres + pedestal upwards between two neighbouring samples, none is missed, and hits are NSA/4 apart |

## Left out

- Hosts are little-endian, as those the code runs on; floating-point leaf data are bit patterns.
- Reads and copies beyond the end of a buffer, undefined in C and C++, end the model's run with an `Overrun` or `BadCount` fault.
- Byte counts of 2^31 and more, and composite format strings of more than 262139 bytes, for which the C++ integers overflow.
- The leaf classes' declarations (`evioTypedefs.hxx`, `evioUtilTemplates.hxx`) are not part of this model: a leaf holds its data by kind, and C++ casts between element types are left out.
- Dictionaries, `toString`, queries, XML, and the file and socket channels of evio.
- ToolDelivery.NextDelivers: of eight-byte data, which the reader takes from beyond the leaf, of texts with empty or unprintable strings, whose last string may run on past the leaf, and of composites without a readable record list, the tree does not tell what a booked leaf gets; such places are `Unclear` and nothing is said about them. `ToolTypes` says what is read of them as written.
- EvioTool's leaf and bank names, `StoreLocation` and the callbacks of user-defined banks; leaves are told apart by tag, num and place.
- ToolReader.AddOrFillLeaf: reads the items before a new leaf is made, where the source makes the leaf first; a fault then leaves no empty leaf behind.
- ToolChunks.Reader.NextNoParse: local ET systems only; files, and remote systems with their single-event gets, are left out.
- Remote and no-share bridges, groups of events, and what `calloc` failures do.
- EtPort.Port.EventsGet: which events come, and what other attachments do meanwhile, is left open; stations and their lists are not modelled.
- EtPort.Port.EventsNew: why a temp event cannot be made is left open here and modelled in `EtTemps`.
- EtTransfer.CopyOne: the user's conversion routine may write any data of the same size and may refuse; it does not touch other fields.
- EtTemps: crashes while the system mutex is held, and the wait-and-retry loop around a full count, which repeats the same step.
- EtMonitor.DataBlock: attachments and processes change at most between the counting and the sending, not during either; the fixed size of the encoders' buffers and of the decoders' character arrays; strings are shorter than 65536 bytes.
- EtStations.SendStations: the list does not change between or during the loops, except that the count may be any number.
- TriggerConfig.Configuration.ParseRawData: lines come split into token and value, numbers read; the VTP part and the channel table are left out; the loop that puts a value into every slot is one assignment of the map.
- Channel numbers outside 0 to 15, which the source stores beyond the vector.
- SVT event-builder headers and tails are kept as words; their bit fields other than size and flags, and the printed warnings, are left out.
- Pulses.ComputeMode7: the fine-time interpolation, and rounding; thresholds, pedestals and integrals are exact reals.
- Mode 3 and single-pulse computations, cluster finding, geometry, and the ROOT and histogram code.
