# Proconsul: verified models of the remote-desktop client core

Proconsul serves remote desktops to a browser. This project models the parts of it whose correctness cannot be
read off one function, and proves what they promise:

- **TINF**, the streaming DEFLATE decoder of noVNC (`Bits`, `Huffman`, `Trees`, `Inflate`, `TinfDecoder`). The class
  `TinfDecoder.Tinf` works on the source's own buffers and arrays and is proved equal, on every input, malformed ones
  included, to the function `Inflate.Uncompress`. `Deflate`, `Streams` and `Windows` prove that this function inverts an
  independently defined encoder: canonical codes, LZ77 elements, dynamic headers, whole streams, sessions of calls. The
  encoder has its own number tables and orders, those of RFC 1951.
- **The resumable RFB parser** (`RfbSpec`, `RfbChunks`, `WebsockQueue`, `RfbSteps`, `RfbClient`, `Pixels`, `TightStreams`).
  `RfbSpec.Step` is a machine that makes one decision at a time; `RfbChunks` proves exactly when cutting the stream into
  messages is unobservable for it; the class `RfbClient.Rfb`, with the source's re-entered handlers, is proved to follow it
  whatever arrives and whenever its timer runs. `TightStreams` puts the TINF decoder into the four streams of Tight.
- **What the server means is what the client shows.** `Screens` gives every effect its meaning in pixels; `RfbServer` writes
  messages as RFC 6143 and the Tight encoding have them, and says what they mean, without referring to the reader;
  `RfbDecodes`, `HextileDecodes`, `TightDecodes` and `RfbSessions` prove for each encoding, each message and every sequence of
  messages that the machine takes exactly their bytes and shows what they mean; `RfbRefusals` says what it refuses;
  `Delivery` carries the meaning to the class, for every untorn way of delivering the bytes.
- **Display** (`DisplayCanvas`): viewport and clean-rectangle tracking against a canvas of pixels.
- **DES** (`DesBlock`): the bit-twiddled block function refines the network of FIPS 46-3 and is undone by reversed keys.
- **jQuery Callbacks and Deferred** (`CallbackLists`, `CallbackRuns`, `DeferredRuns`): re-entrant firing, over all runs.
- **The docker-gen debouncer** (`Debouncer`): a timed machine, compared with a reference that has no timers.
- **Codecs**: Base64 and the send queue (`Base64Text`, `Base64Standard`), the JNI string loop (`JniStrings`), the RDPEI
  integers (`TouchIntegers`, `TouchLayouts`).

How the source is read:

- JavaScript's bit operators are written out on natural numbers or as 32-bit vectors. A byte read past the end of the TINF
  source counts as 0; a palette or result entry that was never written is `UNDEFINED`; a code length never written acts as 0.
- TINF blocks need not end. The ghost number `n` bounds the tokens of a block; a method's `requires ... .Finished?` says only
  that the block it is given ends for some `n`, and nothing in the result depends on `n`.
- In the RFB parser the zlib decompressor is a parameter (`Codec`, instantiated in `TightStreams`) and drawing is a list of
  effects. The machine is dead after a failure, which leaves the page, after an exception, and once a number the code goes
  on with has become NaN. The pixel format is the 32-bit true-colour one that the client requests.
- Time, the socket's buffered amount, callbacks and the choices of `select` are inputs.

Where the code does not keep a promise, the failure and its exact extent are proved:

- The TINF block loop tests fetched bytes, not unread bits: `Streams.ShortFinalBlockIsLost`, `Streams.CompleteIff`.
- COPYRECT, RRE, raw rectangles of width 0 and colour maps read on without waiting for what they read, and lose it when a
  message ends there: `RfbChunks.StallsExactly`, `RfbChunks.BoundaryUnobservableIff`, `RfbChunks.TornLosesCopy`.
- A Tight palette of one colour reads outside its data: `Pixels.OneColorReadsOutside`.
- A blank hextile right after a raw one is left as it was, while section 7.7.4 of RFC 6143 gives it the background in
  force: `HextileDecodes.HexMeantIff`.
- Stream resets that come with a fill, an image or fewer than twelve bytes of data are not carried out:
  `TightDecodes.ResetsLostIff`.
- The left dirty box is one column too wide: `DisplayCanvas.DirtyExactly`, `DisplayCanvas.PartitionIff`.
- Adding to a locked memory list unlocks it: `CallbackRuns.LockedListFiresAgain`, `CallbackRuns.LockLostIff`. Locking is
  documented to abort pending executions and aborts none: `CallbackRuns.LockAbortsNothing`.
- Two RDPEI writers lose values: `TouchIntegers.ReadsBack`.

## Model

| member | source | states |
|---|---|---|
| `Huffman.PrefixFree` | novnc/include/jsunzip.js:372-394 | For every list of code lengths, at most one symbol's canonical code begins at a bit of the stream. |
| `Huffman.CodeFits` | novnc/include/jsunzip.js:303-328 | If the lengths are not over-subscribed (Kraft sum), each canonical code fits its length. |
| `Huffman.SlotInjective` | novnc/include/jsunzip.js:303-328 | The counting sort gives different used symbols different slots. |
| `Trees.Tree.Build` | novnc/include/jsunzip.js:303-328 | After building, the tables represent exactly the given lengths, whatever an earlier block left in them. |
| `Trees.Tree.Sort` | novnc/include/jsunzip.js:323-327 | The sorting loop puts each used symbol in its slot of `trans`. |
| `Trees.BuildFixedTrees` | novnc/include/jsunzip.js:278-300 | The hand-written fixed tables represent the fixed code lengths of section 3.2.6 of RFC 1951. |
| `Trees.FixedCodesAreRfc` | novnc/include/jsunzip.js:278-300 | The canonical codes of those lengths are the bit patterns that section lists, for each of the 288 symbols. |
| `Streams.FixedUsable` | novnc/include/jsunzip.js:278-300 | The fixed codes are not over-subscribed. |
| `TinfDecoder.BuildBitsBase` | novnc/include/jsunzip.js:261-275 | The extra-bits and base tables: each base is the one before plus the range its extra bits cover. |
| `TinfDecoder.BuildCodeTables` | novnc/include/jsunzip.js:583-597 | Both pairs of tables hold the bases and extra bits of `Inflate`, with the length-258 entry corrected; the next three rows say which numbers those are. |
| `Deflate.LengthsAgree` | novnc/include/jsunzip.js:583-597 | The 29 length bases are those of the table in section 3.2.5 of RFC 1951, 258 for code 285 included. |
| `Deflate.DistancesAgree` | novnc/include/jsunzip.js:583-597 | The 30 distance bases are those of the same section. |
| `Deflate.BitsAgree` | novnc/include/jsunzip.js:583-597 | So are the numbers of extra bits of lengths and distances. |
| `Deflate.MatchInRange` | novnc/include/jsunzip.js:497-508 | Every match that can be encoded has a length of 3 to 258 and a distance of 1 to 32768, and code 285 is exactly length 258. |
| `Inflate.DistanceInWindow` | novnc/include/jsunzip.js:505-511 | No distance code with its extra bits reaches beyond 32768 bytes. |
| `Deflate.MatchHasElement` | novnc/include/jsunzip.js:261-275 | Every length 3 to 258 and distance 1 to 32768 has a code with extra bits. |
| `TinfDecoder.Tinf.constructor` | novnc/include/jsunzip.js:583-603 | A new decoder is valid, with an empty history and no zlib header seen. |
| `TinfDecoder.Tinf.Reset` | novnc/include/jsunzip.js:599-603 | Fresh trees, an empty history, and no header seen. |
| `TinfDecoder.Tinf.GetBit` | novnc/include/jsunzip.js:335-352 | Returns the bit at the logical position and moves on by one, even when the tag is stale but nothing is buffered. |
| `TinfDecoder.Tinf.Fetch` | novnc/include/jsunzip.js:361-364 | Reading ahead keeps the logical position and at most 31 buffered bits. |
| `TinfDecoder.Tinf.ReadBits` | novnc/include/jsunzip.js:355-369 | Returns base plus the next bits of the stream, low bit first, and moves on by that many. |
| `TinfDecoder.Tinf.WalkCode` | novnc/include/jsunzip.js:379-388 | The arithmetic walk through the length counts finds the one matching symbol, and never looks at a stale `trans` entry. |
| `TinfDecoder.Tinf.DecodeSymbol` | novnc/include/jsunzip.js:372-394 | Returns the symbol whose canonical code begins here, or none, and consumes exactly its length. |
| `Deflate.SymbolDecodes` | novnc/include/jsunzip.js:372-394 | Decoding the canonical code of a symbol, followed by anything, gives that symbol and consumes its length. |
| `TinfDecoder.Tinf.ReadMeta` | novnc/include/jsunzip.js:413-422 | Reads the code-length code lengths in the order of the table `clcidx`. |
| `Deflate.ClcidxIsOrder` | novnc/include/jsunzip.js:250-254 | That table is the order in which an encoder sends them: 16, 17, 18, 0, then by turns up from 8 and down from 7. |
| `Deflate.MetaDecodes` | novnc/include/jsunzip.js:413-422 | Reading a code-length code sent in the encoder's own order returns it. |
| `TinfDecoder.Tinf.ReadOneRun` | novnc/include/jsunzip.js:430-462 | One code-length symbol appends exactly its run, including a repeat across the literal/distance boundary. |
| `TinfDecoder.Tinf.ReadRuns` | novnc/include/jsunzip.js:428-463 | The run loop gives the expanded length list. |
| `Deflate.RunsDecode` | novnc/include/jsunzip.js:428-463 | Reading an encoded list of runs gives its expansion, for every way to cut lengths into runs. |
| `TinfDecoder.Tinf.ReadTrees` | novnc/include/jsunzip.js:397-463 | The header's counts and all lengths, although `lengths` is reused as scratch. |
| `TinfDecoder.Tinf.DecodeTrees` | novnc/include/jsunzip.js:397-468 | The two trees represent the literal and distance parts of the run-length expanded lengths. |
| `Deflate.HeaderDecodes` | novnc/include/jsunzip.js:397-468 | Every well-formed dynamic header decodes to its own code lengths and is consumed exactly. |
| `TinfDecoder.Tinf.ReadMatch` | novnc/include/jsunzip.js:497-508 | Length and distance with their extra bits, also for symbols without an entry. |
| `Inflate.CopyIsPeriodic` | novnc/include/jsunzip.js:513-518 | A copied match repeats the last `dist` bytes, also when the length exceeds the distance. |
| `TinfDecoder.Tinf.CopyMatch` | novnc/include/jsunzip.js:513-518 | The copy loop appends the same periodic bytes to `dest` and `history`. |
| `TinfDecoder.Tinf.InflateToken` | novnc/include/jsunzip.js:483-519 | One round of the loop does one token: literal, copy, end of block, or a read before the history. |
| `Deflate.ElementDecodes` | novnc/include/jsunzip.js:483-519 | An encoded literal or match is read back as itself. |
| `TinfDecoder.Tinf.InflateBlockData` | novnc/include/jsunzip.js:475-521 | The block's expansion is appended to `dest` and to `history`, and the position is the bit after end-of-block. |
| `Deflate.BlockDecodes` | novnc/include/jsunzip.js:475-521 | For every well-formed element list, inflating its encoding gives its LZ77 expansion and stops after end-of-block. |
| `TinfDecoder.Tinf.InflateUncompressedBlock` | novnc/include/jsunzip.js:524-559 | Rounds the position up to a byte, checks the complement, copies the bytes, and leaves nothing buffered. |
| `Streams.StoredDecodes` | novnc/include/jsunzip.js:524-559 | A well-formed stored block gives back its data. |
| `TinfDecoder.Tinf.InflateDynamicBlock` | novnc/include/jsunzip.js:569-576 | Header, then contents under the trees it described. |
| `TinfDecoder.Tinf.InflateBlock` | novnc/include/jsunzip.js:630-658 | Final flag, type and contents of one block; the stale tag a stored block leaves is never observed. |
| `Streams.OneBlockDecodes` | novnc/include/jsunzip.js:630-658 | Every well-formed block of each type inflates to its expansion and ends at its last bit. |
| `TinfDecoder.Tinf.InflateBlocks` | novnc/include/jsunzip.js:626-661 | The block loop equals its recursive specification. |
| `TinfDecoder.Tinf.UncompressCall` | novnc/include/jsunzip.js:606-666 | One call, from any state an earlier call left: status, data and the cut history, with the zlib header skipped once. |
| `Streams.StreamDecodes` | novnc/include/jsunzip.js:626-661 | A well-formed stream whose blocks but the last end 32 bits before the end of the source is inflated completely. |
| `Inflate.AdvanceReaches` | novnc/include/jsunzip.js:361-377 | How far the source has been fetched is a function of bit positions alone: 16 bits ahead of each symbol, 24 ahead of each read. |
| `Streams.BlocksDecode` | novnc/include/jsunzip.js:628-661 | For every well-formed stream: which blocks are read, that exactly their expansion is returned with success, and that fewer than 32 bits are left if a block is not read. |
| `Streams.CompleteIff` | novnc/include/jsunzip.js:628-661 | A well-formed stream is inflated to its end if and only if after every block but the last a byte is left to be fetched, a condition on the blocks and their bit positions. |
| `Streams.ExitIsLate` | novnc/include/jsunzip.js:628-661 | On any input the last block read has the final flag, or fewer than 32 bits are left after it. |
| `Streams.ReadAheadStops` | novnc/include/jsunzip.js:628-661 | When the header of a non-final fixed or dynamic block has read the whole source ahead, the loop stops after that block; a stored block gives the bytes back. |
| `Streams.ShortFinalBlockIsLost` | novnc/include/jsunzip.js:628-661 | A four-byte stream that holds one byte decodes to nothing, with status OK. |
| `Streams.SyncFlushDecodes` | novnc/include/jsunzip.js:606-666 | A call whose data ends with a flushed stored block returns all of it. |
| `Windows.WindowUnobserved` | novnc/include/jsunzip.js:606-666 | For any sequence of calls on any data, cutting the history gives the same results as keeping everything. |
| `Windows.WholeSessionDecodes` | novnc/include/jsunzip.js:606-666 | A decoder that keeps everything returns the expansion of a whole flushed session. |
| `Windows.SessionDecodes` | novnc/include/jsunzip.js:606-666 | So does the real one: each call succeeds and the joined output is the expansion of the whole stream. |
| `RfbSpec.TruncatedLength` | novnc/include/rfb.js:1317-1329 | A compact length that is not all there demands more bytes than are queued, never more than it will when it is, and a complete one is not changed by more bytes. |
| `RfbChunks.StepStable` | novnc/include/rfb.js:927-1567 | A decision of the parser stands when more bytes arrive, unless it stalls in a fragile read. |
| `RfbChunks.StallsExactly` | novnc/include/rfb.js:942-1182 | More bytes can change a decision if and only if a colour map, COPYRECT, RRE or raw rectangle of width 0 has too little of its fixed part queued. |
| `RfbChunks.StallStep` | novnc/include/rfb.js:1011-1182 | What a stall does: the header is taken without effect and what follows is awaited as a new one, or the parser is lost in NaN. |
| `RfbChunks.StepValid` | novnc/include/rfb.js:986-1098 | Every step keeps the update record consistent, takes only queued bytes and makes progress. |
| `RfbChunks.RunExtends` | novnc/include/rfb.js:927-1098 | Unless a read is torn at the boundary, running on part of the input and then on the rest is running on all of it. |
| `RfbChunks.BoundaryUnobservableIff` | novnc/include/rfb.js:927-1567 | What is done with a first message is on the way of the run over both if and only if the boundary tears no read apart. |
| `RfbChunks.ClearCuts` | novnc/include/rfb.js:927-1567 | It is enough that no message ends inside a fragile read of the run over the whole stream. |
| `RfbChunks.InsideNeedNotTear` | novnc/include/rfb.js:1104-1149 | That is not necessary: after a raw rectangle of height 0, which waits for a line it does not use, a message may end inside a COPYRECT without tearing it. |
| `RfbChunks.ChunkingUnobservable` | novnc/include/rfb.js:927-1567 | For every cutting into messages none of which tears a read, record, effects and unread bytes equal one-message delivery; a tear at the very end of the stream does no harm. |
| `RfbChunks.TornLosesCopy` | novnc/include/rfb.js:1132-1149 | A COPYRECT cut after 12 to 15 bytes, with any number of rectangles to come, is not drawn, and the next header read begins with its coordinates. |
| `WebsockQueue.Websock.ShiftBytes` | novnc/include/websock.js:134-138 | What the shifts have returned and what is unread are, in order, everything received; a shift moves bytes from one to the other. |
| `WebsockQueue.Websock.Append` | novnc/include/websock.js:176-181 | A message goes to the end of the unread bytes. |
| `WebsockQueue.Websock.Compact` | novnc/include/websock.js:231-235 | Compaction does not change the unread bytes. |
| `WebsockQueue.Websock.Wait` | novnc/include/websock.js:151-165 | Waits exactly when too little is queued, and puts the last `goback` bytes back or reports that it cannot. |
| `WebsockQueue.Websock.Unshift8` | novnc/include/websock.js:107-115 | Any byte can be put in front of the unread ones; putting back the one shifted last restores the account, also after compaction. |
| `WebsockQueue.Websock.Shift16` | novnc/include/websock.js:116-119 | Two bytes, high first, off the front. |
| `WebsockQueue.Websock.Shift32` | novnc/include/websock.js:120-125 | Four bytes, high first, off the front. |
| `RfbClient.Rfb.DisplayRaw` | novnc/include/rfb.js:1104-1130 | Drawing several queued lines at once is the machine drawing them one by one, from wherever the rectangle was left. |
| `RfbSteps.PredictTile` | novnc/include/rfb.js:1199-1237 | The bytes predicted for a tile, stopping at the first wait that fails. |
| `RfbSteps.DrawTile` | novnc/include/rfb.js:1250-1305 | Drawing a tile makes the machine's drawing calls and consumes exactly the predicted bytes. |
| `RfbClient.Rfb.DisplayHextile` | novnc/include/rfb.js:1184-1315 | The tile loop follows the machine, with colours kept across tiles and messages. |
| `Pixels.TilesPartition` | novnc/include/rfb.js:1190-1214 | Each pixel of a rectangle is in exactly one tile of the countdown. |
| `Pixels.TilesInside` | novnc/include/rfb.js:1208-1214 | No tile reaches outside its rectangle. |
| `RfbClient.Rfb.HandlePalette` | novnc/include/rfb.js:1372-1447 | Follows the machine through the palette, the compact length and the data, each of which may be waited for. |
| `RfbClient.Rfb.HandleCopy` | novnc/include/rfb.js:1449-1478 | The same for uncoloured data, stored raw below 12 bytes. |
| `RfbClient.Rfb.DisplayTight` | novnc/include/rfb.js:1331-1567 | Every Tight mode follows the machine; waiting changes nothing but the byte hint. |
| `Pixels.ExpandPalette` | novnc/include/rfb.js:1402-1437 | For two or more colours and any width the output is the cells the palette selects, reading only the given data. |
| `Pixels.CellAt` | novnc/include/rfb.js:1402-1437 | Each of the 3 * width * height cells is the component of the colour its bit or byte selects. |
| `Pixels.OneColorReadsOutside` | novnc/include/rfb.js:1378-1437 | With one colour the reads stay inside the data if and only if the image is at most one pixel wide or empty. |
| `RfbClient.Rfb.SetCursor` | novnc/include/rfb.js:1604-1629 | The cursor pseudo-encoding waits for pixels and mask together. |
| `RfbClient.Rfb.CallSimpleHandler` | novnc/include/rfb.js:1104-1149 | COPYRECT, raw rectangles of width 0 and the encodings without data take exactly the machine's step, stalls included. |
| `RfbSteps.RreRuns` | novnc/include/rfb.js:1161-1169 | Drawing several queued subrectangles in one call is the machine drawing them one by one. |
| `RfbClient.Rfb.DrawSubrects` | novnc/include/rfb.js:1161-1181 | The RRE loop draws all subrectangles that are queued, then asks for a chunk of 100 or for the rest. |
| `RfbClient.Rfb.BeginRre` | novnc/include/rfb.js:1151-1182 | An RRE rectangle from its header on follows the machine, with the stall when count and background are missing. |
| `RfbClient.Rfb.ResumeRre` | novnc/include/rfb.js:1151-1182 | Called again after a wait, RRE goes on with the rectangle and follows the machine. |
| `RfbClient.Rfb.Rectangle` | novnc/include/rfb.js:1007-1058 | A rectangle, new or resumed, follows the machine; its header is read once. |
| `RfbClient.Rfb.Rectangles` | novnc/include/rfb.js:1006-1089 | The rectangle loop follows the machine until it waits or the update is complete. |
| `RfbClient.Rfb.FramebufferUpdate` | novnc/include/rfb.js:986-1098 | Entered anew or resumed, an update follows the machine. |
| `RfbClient.Rfb.ServerCutText` | novnc/include/rfb.js:966-976 | A cut text that is not complete is put back whole. |
| `RfbClient.Rfb.ColourMapEntries` | novnc/include/rfb.js:942-961 | A colour map is registered entry by entry or put back whole; with its header incomplete the number of colours is NaN. |
| `RfbClient.Rfb.NormalMsg` | novnc/include/rfb.js:927-984 | One message of any type, a resumed update or a failure, as the machine does it. |
| `RfbClient.Rfb.HandleMessage` | novnc/include/rfb.js:536-567 | Keeps the class invariant: unless a message tore a read, what has been done is a prefix of the machine's run over everything received, and if the code could go on the timer is set. |
| `RfbClient.Rfb.RecvMessage` | novnc/include/websock.js:223-247 | The invariant survives the arrival of any bytes, with compaction. |
| `RfbClient.Rfb.TimerFires` | novnc/include/rfb.js:552-557 | The invariant survives the timer, whenever it runs. |
| `RfbClient.Rfb.Quiescent` | novnc/include/rfb.js:927-1567 | With no timer pending and no read torn by a message, record, effects and unread bytes are those of one run over everything received; only inside an RRE rectangle the code may be behind, by less than 100 subrectangles. |
| `TightStreams.StreamAlone` | novnc/include/rfb.js:1354-1370 | Interleaved with the other three, a zlib stream returns what its decoder returns on its own data. |
| `TightStreams.TightStreamDecodes` | novnc/include/rfb.js:1354-1370 | For every interleaving, a stream whose data is a flushed DEFLATE stream decompresses in every rectangle, and the pieces together are its LZ77 expansion. |
| `RfbDecodes.HeaderReads` | novnc/include/rfb.js:1015-1021 | For all values and any following bytes, x, y, width, height and encoding are read back from a header as section 7.6.1 of RFC 6143 writes it. |
| `RfbDecodes.RawDecodes` | novnc/include/rfb.js:1104-1130 | A raw rectangle paints pixel (i, j) of its picture at (x + i, y + j) and nothing else. |
| `RfbDecodes.CopyDecodes` | novnc/include/rfb.js:1132-1149 | A COPYRECT shows at each place what the screen showed at its source. |
| `RfbDecodes.RreDecodes` | novnc/include/rfb.js:1151-1182 | An RRE rectangle shows at each pixel the last subrectangle that holds it, else the background. |
| `HextileDecodes.TileBox` | novnc/include/rfb.js:1205-1214 | A place is in tile n if and only if it is in the rectangle and its row-by-row tile number is n. |
| `HextileDecodes.PlainReads` | novnc/include/rfb.js:1262-1298 | A tile with colours and subrectangles is read back as written, in every combination of its flags. |
| `HextileDecodes.HextileDecodes` | novnc/include/rfb.js:1184-1315 | Over any run of tiles: a raw tile shows its pixels, any other the last subrectangle that holds the pixel, else the background of the last tile that carried one; subrectangles without a colour have the foreground of the last tile that carried one. |
| `HextileDecodes.HexMeantIff` | novnc/include/rfb.js:1254-1261 | A hextile rectangle looks as section 7.7.4 of RFC 6143 has it, on every screen, if and only if no tile is blank right after a raw one. |
| `TightDecodes.CompactReads` | novnc/include/rfb.js:1317-1329 | For every length below 2^22 and any following bytes, the compact form (7, 7 and 8 bits, low first, shortest form) is read back with its size. |
| `TightDecodes.ControlReads` | novnc/include/rfb.js:1480-1494 | Every control byte a server writes selects the form and the stream it was written for. |
| `TightDecodes.DataUnpacks` | novnc/include/rfb.js:1354-1370 | Data comes out of the stream the control byte names, after the resets it asks for, and is what the server packed. |
| `TightDecodes.ResetsLostIff` | novnc/include/rfb.js:1354-1370 | The streams are left as the resets want them if and only if the rectangle carries compressed data or no stream to be reset is in use. |
| `TightDecodes.TightDecodes` | novnc/include/rfb.js:1331-1567 | A Tight or TightPNG rectangle shows its colour, its pixels, or the palette colours its cells select; an image is handed over byte for byte. |
| `TightDecodes.PaletteIsExpanded` | novnc/include/rfb.js:1402-1446 | The cells that the palette loops fill in, drawn as RGB, are the picture that the indexes select. |
| `RfbSessions.RectDecodes` | novnc/include/rfb.js:1007-1058 | Every rectangle is taken whole and does to screen and callbacks what the server means by it. |
| `RfbSessions.RectsDecode` | novnc/include/rfb.js:1006-1089 | So does every list of rectangles, with later ones over earlier ones, and the update is complete after the last. |
| `RfbSessions.MessageDecodes` | novnc/include/rfb.js:927-984 | Every message, updates ended early by LastRect included, is taken whole and leaves the parser idle. |
| `RfbSessions.SessionDecodes` | novnc/include/rfb.js:927-1098 | For every sequence of messages the machine ends idle with nothing unread, has shown what they mean, and has handed over everything else they carry in order. |
| `RfbRefusals.EncodingRefusedIff` | novnc/include/rfb.js:1023-1058 | The parser goes on after a header if and only if its encoding number is one of the nine there is a handler for; otherwise it fails or throws. |
| `RfbRefusals.MessageRefusedIff` | novnc/include/rfb.js:927-984 | A message is refused if and only if its type is above 3; the model also ends with a colour map cut short and a text of 2^31 bytes. |
| `RfbRefusals.TileRefusedIff` | novnc/include/rfb.js:1201-1206 | A tile is refused if and only if its flag byte is above 30. |
| `RfbRefusals.TightRefusedIff` | novnc/include/rfb.js:1480-1546 | Which control and filter bytes Tight and TightPNG refuse, as byte ranges. |
| `Delivery.ClientShows` | novnc/include/rfb.js:536-567 | The same for the client itself, however the bytes were cut into messages without tearing a read and whenever its timer ran. |
| `DisplayCanvas.Display.ChangeSize` | novnc/include/display.js:225-256 | The size part of a viewport change: clean pixels stay where they are on the resized canvas. |
| `DisplayCanvas.ResizedAt` | novnc/include/display.js:240-253 | Saving and restoring around a resize keeps what is on both canvases and leaves the rest empty. |
| `DisplayCanvas.Display.Move` | novnc/include/display.js:274-337 | The position part: clean pixels are moved with the picture, exposed ones are white. |
| `DisplayCanvas.Display.SizeAndMove` | novnc/include/display.js:225-337 | The viewport ends clamped inside the framebuffer; the intermediate size counts as a viewport. |
| `DisplayCanvas.Display.ViewportChange` | novnc/include/display.js:208-337 | For all arguments, given or missing, the new viewport is the requested one cut and pushed into the framebuffer, with the tracking invariant kept. |
| `DisplayCanvas.Display.Resize` | novnc/include/display.js:398-406 | A new framebuffer size keeps every invariant. |
| `DisplayCanvas.Display.FillRect` | novnc/include/display.js:424-427 | Drawing in framebuffer coordinates changes exactly that rectangle of the canvas, clean or not, and keeps the tracking invariant. |
| `DisplayCanvas.Display.GetCleanDirtyReset` | novnc/include/display.js:346-387 | Returns the boxes for the old clean rectangle and starts tracking again from the present viewport. |
| `DisplayCanvas.CutIntersects` | novnc/include/display.js:289-301 | The clean rectangle is exactly the intersection of all viewports since the last reset. |
| `DisplayCanvas.MovedKeeps` | novnc/include/display.js:303-337 | A pixel that stays in view is in its new place after the shifts and fills of both axes. |
| `DisplayCanvas.MovedExposes` | novnc/include/display.js:303-337 | A pixel that comes into view is white. |
| `DisplayCanvas.BoxesCover` | novnc/include/display.js:346-380 | The clean box and the dirty boxes together are exactly the viewport. |
| `DisplayCanvas.DirtyExactly` | novnc/include/display.js:355-380 | Which pixels are dirty: those not clean, everything when the clean rectangle is thinner than two pixels, and one clean column too many on the left. |
| `DisplayCanvas.PartitionIff` | novnc/include/display.js:355-380 | Clean and dirty are disjoint if and only if the clean rectangle is empty, or two pixels in both directions and at the left edge. |
| `DesBlock.Des.Enc8` | novnc/include/des.js:185-263 | The in-place code is the network of FIPS 46-3 for every table and key: IP of the output is the swapped result of the standard's rounds on IP of the input. |
| `DesBlock.FirstByteHighest` | novnc/include/des.js:189-191 | Words are read with the first byte highest, as the bit numbering of FIPS 46-3 wants it. |
| `DesBlock.Des.AllRounds` | novnc/include/des.js:211-236 | Eight turns of two in-place rounds are sixteen rounds with swapped halves. |
| `DesBlock.RoundsUndone` | novnc/include/des.js:211-236 | For every round function and any number of rounds, the reversed keys undo them. |
| `DesBlock.NetworksInverse` | novnc/include/des.js:193-254 | The initial and final swap networks are inverse to each other. |
| `DesBlock.InitialIsStandard` | novnc/include/des.js:193-209 | The initial network is the permutation IP of FIPS 46-3 with each half turned left by one bit. |
| `DesBlock.OddIndexes` | novnc/include/des.js:212-217 | The odd table indexes of a round are the expansion E of FIPS 46-3 of the unturned half, with the key added. |
| `DesBlock.EvenIndexes` | novnc/include/des.js:218-222 | The same for the even tables. |
| `DesBlock.RefinesStandard` | novnc/include/des.js:185-263 | For every round function the block function is IP, the rounds on unturned halves, the exchange of halves and the inverse of IP. |
| `DesBlock.RoundIsStandard` | novnc/include/des.js:212-223 | The round on turned halves is, on plain ones, each table indexed by six bits of the expansion with six bits of key added. |
| `DesBlock.EncryptIsStandard` | novnc/include/des.js:185-263 | Both together: enc8 is the standard's network with its tables in place of the S-boxes and P. |
| `DesBlock.Decrypts` | novnc/include/des.js:185-263 | Encrypting again with the key pairs reversed returns the block. |
| `DesBlock.Bijection` | novnc/include/des.js:185-263 | Exactly one block encrypts to each block. |
| `CallbackLists.Callbacks.Loop` | app/proconsul/WebContent/resources/jquery-1.12.0.js:3227-3261 | The two loops of fire, cut at each callback, equal their specification. |
| `CallbackLists.Callbacks.Add` | app/proconsul/WebContent/resources/jquery-1.12.0.js:3267-3294 | Adding, with the immediate call when the list remembers, equals its specification. |
| `CallbackLists.Callbacks.FireWith` | app/proconsul/WebContent/resources/jquery-1.12.0.js:3356-3366 | Firing queues the arguments and runs unless a run is under way; a locked list ignores it. |
| `CallbackLists.Callbacks.Returned` | app/proconsul/WebContent/resources/jquery-1.12.0.js:3229-3240 | What happens when a callback returns, including stopOnFalse. |
| `CallbackLists.Callbacks.Remove` | app/proconsul/WebContent/resources/jquery-1.12.0.js:3298-3310 | Removing while firing leaves exactly the other pending callbacks to be called, in order. |
| `CallbackRuns.LockAbortsNothing` | app/proconsul/WebContent/resources/jquery-1.12.0.js:3341-3350 | In every state the calls that follow a lock as callbacks return, queued fires included, are the ones that would have followed without it. |
| `CallbackRuns.DisabledForGood` | app/proconsul/WebContent/resources/jquery-1.12.0.js:3329-3336 | With any options and in any state, firing or not, a disabled list never makes a call again, whatever is done to it. |
| `CallbackLists.AddAllUnique` | app/proconsul/WebContent/resources/jquery-1.12.0.js:3276-3288 | With "unique" no function is in the list twice and none is forgotten. |
| `CallbackRuns.FireOwes` | app/proconsul/WebContent/resources/jquery-1.12.0.js:3356-3366 | With any options and in any state, a fire owes one round of calls with its arguments, after everything owed before, unless the list is locked. |
| `CallbackRuns.LateAddOwes` | app/proconsul/WebContent/resources/jquery-1.12.0.js:3267-3294 | Functions added to an idle list that remembers are owed one call each with the remembered arguments; otherwise none. |
| `CallbackRuns.OthersOwe` | app/proconsul/WebContent/resources/jquery-1.12.0.js:3227-3350 | A return makes the first call owed, a return of false from a list that stops gives up its round, a lock gives up nothing, empty and disable everything. |
| `CallbackRuns.FiresInOrder` | app/proconsul/WebContent/resources/jquery-1.12.0.js:3227-3261 | As callbacks return, exactly the calls owed are made: queued fires run in the order in which they were made. |
| `CallbackRuns.LastFireRemembered` | app/proconsul/WebContent/resources/jquery-1.12.0.js:3227-3261 | However many fires are queued, the last one made is the one the list remembers, if it remembers at all. |
| `CallbackRuns.EachCalledOnce` | app/proconsul/WebContent/resources/jquery-1.12.0.js:3189-3381 | In every run of a "once memory" list, calls are the added functions in order with the first fire's arguments, each exactly once when the list is idle after a fire. |
| `CallbackRuns.LockLostIff` | app/proconsul/WebContent/resources/jquery-1.12.0.js:3219-3261 | An operation unlocks a locked list if and only if it adds to an idle, remembering list without "once". |
| `CallbackRuns.LockedListFiresAgain` | app/proconsul/WebContent/resources/jquery-1.12.0.js:3219-3261 | A run in which a locked list fires again. |
| `DeferredRuns.InvHolds` | app/proconsul/WebContent/resources/jquery-1.12.0.js:3386-3465 | In every run at most one of the done and fail lists fires, its own three functions run first, and the second disables the other list. |
| `DeferredRuns.NeverBoth` | app/proconsul/WebContent/resources/jquery-1.12.0.js:3441-3465 | No run calls both a done and a fail function, and the state tells which. |
| `DeferredRuns.SettledCallsAll` | app/proconsul/WebContent/resources/jquery-1.12.0.js:3441-3465 | Done functions are called in order with the first resolve's arguments, all of them once when the Deferred is resolved and idle; likewise fail. |
| `DeferredRuns.SettlesOnce` | app/proconsul/WebContent/resources/jquery-1.12.0.js:3449-3456 | A settled state never changes. |
| `DeferredRuns.FirstDecides` | app/proconsul/WebContent/resources/jquery-1.12.0.js:3441-3465 | Whichever of resolve and reject comes first decides, whatever follows. |
| `DeferredRuns.ProgressUnlockedIff` | app/proconsul/WebContent/resources/jquery-1.12.0.js:3456-3456 | The locked progress list is unlocked exactly by adding to it while idle after some notify. |
| `Debouncer.ParseWait` | docker-gen/config.go:56-85 | Given durations are kept and a missing Max is four times Min; an accepted wait with a positive Min has Max at least Min; the only range error is Max below Min. |
| `Debouncer.Debounce` | docker-gen/generator.go:465-508 | The goroutine's loop, given the case each turn takes, emits what the timed machine emits. |
| `Debouncer.RunSound` | docker-gen/generator.go:484-503 | In every timed run the inputs are cut into bursts; each emission comes at the deadline of its burst with its newest event. |
| `Debouncer.TimersTogether` | docker-gen/generator.go:484-503 | Both timers are set or neither is, exactly while an event waits, also after a close. |
| `Debouncer.EmissionPromise` | docker-gen/generator.go:484-503 | Some event arrives between two emissions; an emission carries the newest, within Max of the first and Min after the last unless Max expired. |
| `Debouncer.NothingOverdue` | docker-gen/generator.go:484-503 | While the input is open no event waits longer than Max. |
| `Debouncer.NeverStuck` | docker-gen/generator.go:484-503 | While the input is open, an event or a close can be taken at any time until a timer is due, that moment included, and a due timer can fire. |
| `Debouncer.CloseIsFinal` | docker-gen/generator.go:486-488 | After a close nothing is emitted: an event still waiting is dropped. |
| `Debouncer.OutputIsExpected` | docker-gen/generator.go:465-508 | Without ties the output is the one a reference without timers computes from the inputs and the time. |
| `Base64Text.Encode` | novnc/include/base64.js:53-83 | The loop and the padded tail give the encoding of the bytes. |
| `Base64Standard.EncodedIsStandard` | novnc/include/base64.js:50-83 | The encoding is the one of section 4 of RFC 4648, alphabet and padding included, for all bytes. |
| `Base64Text.Decode` | novnc/include/base64.js:97-145 | The loop gives the decoding for any text: illegal characters skipped, padding, undefined slots, leftover bits. |
| `Base64Text.LengthForeseen` | novnc/include/base64.js:105-111 | The result array of an encoded text is made with exactly the length it is filled to. |
| `Base64Text.RoundTrip` | novnc/include/base64.js:53-145 | Decoding inverts encoding for every byte sequence. |
| `Base64Text.Sender.Flush` | novnc/include/websock.js:188-205 | Everything queued goes in one frame or stays queued; frames decoded and queue are everything sent. |
| `Base64Text.Sender.Send` | novnc/include/websock.js:208-212 | Sending keeps that, and a flushed send has delivered everything. |
| `JniStrings.NewString` | rdpstack-docker/FreeRDP/client/Android/android_jni_utils.c:110-196 | For any bytes the loop ends with the decoded units, at most one for each byte, inside its buffer. |
| `JniStrings.RoundTrip` | rdpstack-docker/FreeRDP/client/Android/android_jni_utils.c:131-190 | Any sequence of 16-bit units encoded one at a time is recovered. |
| `JniStrings.Resynchronises` | rdpstack-docker/FreeRDP/client/Android/android_jni_utils.c:131-190 | After any bytes whatever, encoded text is recovered in full. |
| `TouchIntegers.Stream.WriteTwoUnsigned` | rdpstack-docker/FreeRDP/channels/rdpei/rdpei_common.c:56-77 | Accepts or refuses, and appends the bytes of the common layout. |
| `TouchIntegers.Stream.WriteTwoSigned` | rdpstack-docker/FreeRDP/channels/rdpei/rdpei_common.c:108-144 | The same. |
| `TouchIntegers.Stream.WriteFourUnsigned` | rdpstack-docker/FreeRDP/channels/rdpei/rdpei_common.c:198-239 | The same; the branch for four bytes is unreachable. |
| `TouchIntegers.Stream.WriteFourSigned` | rdpstack-docker/FreeRDP/channels/rdpei/rdpei_common.c:298-363 | The same, with the sign forgotten for one-byte values. |
| `TouchIntegers.Stream.WriteEightUnsigned` | rdpstack-docker/FreeRDP/channels/rdpei/rdpei_common.c:477-590 | The same, with bytes 3 and up masked to five bits. |
| `TouchLayouts.TwoUnsignedLayout` | rdpstack-docker/FreeRDP/channels/rdpei/rdpei_common.c:56-77 | The bytes of the form with their literal limits and flags, and what is refused. |
| `TouchLayouts.TwoSignedLayout` | rdpstack-docker/FreeRDP/channels/rdpei/rdpei_common.c:108-144 | The same, with the sign bit. |
| `TouchLayouts.FourUnsignedLayout` | rdpstack-docker/FreeRDP/channels/rdpei/rdpei_common.c:198-239 | The same. |
| `TouchLayouts.FourSignedLayout` | rdpstack-docker/FreeRDP/channels/rdpei/rdpei_common.c:298-363 | The same, without a sign in the shortest form. |
| `TouchLayouts.EightUnsignedLayout` | rdpstack-docker/FreeRDP/channels/rdpei/rdpei_common.c:477-503 | The same for the forms of one to three bytes. |
| `TouchLayouts.EightUnsignedLong` | rdpstack-docker/FreeRDP/channels/rdpei/rdpei_common.c:504-590 | The forms of five to eight bytes, four being unreachable: the count in the first byte, what each other byte holds, and what is refused. |
| `TouchIntegers.Stream.ReadTwoUnsigned` | rdpstack-docker/FreeRDP/channels/rdpei/rdpei_common.c:30-54 | The value, or failure on a short stream, and how far the cursor moves. |
| `TouchIntegers.Stream.ReadTwoSigned` | rdpstack-docker/FreeRDP/channels/rdpei/rdpei_common.c:79-106 | The same. |
| `TouchIntegers.Stream.ReadFourUnsigned` | rdpstack-docker/FreeRDP/channels/rdpei/rdpei_common.c:146-196 | The same. |
| `TouchIntegers.Stream.ReadFourSigned` | rdpstack-docker/FreeRDP/channels/rdpei/rdpei_common.c:241-296 | The same. |
| `TouchIntegers.Stream.ReadEightUnsigned` | rdpstack-docker/FreeRDP/channels/rdpei/rdpei_common.c:365-475 | The same, with the sign extension of a shifted byte. |
| `TouchLayouts.FourthByteExtends` | rdpstack-docker/FreeRDP/channels/rdpei/rdpei_common.c:365-475 | Reading a form of five bytes: a fourth byte from the end of 0x80 or more sets all bits above it. |
| `TouchIntegers.BigOfMasked` | rdpstack-docker/FreeRDP/channels/rdpei/rdpei_common.c:516-583 | Masking loses value exactly when a masked byte has a high bit. |
| `TouchIntegers.ReadsBack` | rdpstack-docker/FreeRDP/channels/rdpei/rdpei_common.c:30-590 | A reader takes exactly the bytes written, and gets the value back if and only if it survives: not four-byte signed -0x1F to -1, nor eight-byte with a byte from the fourth up of 0x20 or more. |
| `TouchIntegers.ListReadsBack` | rdpstack-docker/FreeRDP/channels/rdpei/rdpei_common.c:30-590 | A mixed list of accepted values is read to its end and comes back if and only if every value survives. |

## Left out

- `JSUnzip`: walking ZIP directories, a file-format wrapper around TINF.
- TINF blocks that never end: a method that meets one has no result to state.
- TINF exceptions: reading before the history throws; the status is `Thrown`, and what the caller does then is not modelled.
- `Streams.StreamDecodes`: a sufficient condition that is simpler than the exact one of `Streams.CompleteIff`.
- `RfbChunks.ChunkingUnobservable`: that a torn delivery ends differently is not stated in general, since later bytes may make up for it by chance; `RfbChunks.BoundaryUnobservableIff` is exact for the state at the boundary. Where a read is torn is judged by the run over what had arrived, because a raw rectangle of height 0 waits for a line it does not use.
- What the code does after a number has become NaN: the model stops there.
- RFB connection set-up, authentication dialogue, the 8-bit colour mode, statistics, mouse and keyboard.
- Cut texts of 2^31 bytes and more.
- The browser's image decoding and render queue: an image is one effect, and drawing calls count in the order in which they are made. `Screens` is in framebuffer coordinates, without the viewport and without clipping at the framebuffer's edge.
- Raw rectangles without pixels, in the theorems about server messages: at width 0 or height 0 the client needs further bytes before it goes on. Images of fewer than two bytes and Tight palettes of one colour are left out there for the same reason.
- Hextile subrectangles that reach out of their tile: what is drawn then depends on how the display draws tiles.
- Display scaling, the logo, the cursor and drawing calls other than `fillRect`.
- DES: the contents of the S-box tables and the key schedule; they are parameters of the theorems.
- Deferred: modelled as values, one step for each operation or return, since user callbacks run between steps; `then`, `always` and `when` only compose what is proved. Returns may come in any order, which includes the nested order of JavaScript.
- Callbacks: exceptions thrown by callbacks, and nested argument lists of `add`, which are taken flattened.
- Debouncer: a full output channel, the plain input channel returned when there is nothing to wait for, and the parsing of duration texts.
- `Base64Text.Decode`: the offset argument, which is always 0.
- JNI: a missing input string and a failed allocation.
- RDPEI: the smallest 32-bit integer, whose negation overflows in C.
- docker-gen templates and API calls, FreeRDP clients, the rest of jQuery: I/O, foreign libraries or easy helpers.
