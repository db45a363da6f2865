# Verified model of the Mezon desktop client's protocol, editor and audio core

A Dafny model of the parts of the desktop chat client that carry hard invariants, with proofs that
they hold. `dafny verify dfyconfig.toml` checks the whole project.

- **Framing** (`Varint`, `Protobuf`, `Frames`, `IoLoop`, `ServerFrames`, `Delivery`, `Reassembly`). The incremental decoder of the
  abridged TCP transport, the field walk that cuts zero padding off a protobuf message, the packets
  the client sends, and the per-request reassembly of chunked responses. The result of a connection
  does not depend on where reads cut the bytes, every field of every frame is read as it was written,
  the application is handed exactly what a server sent, requests cannot disturb each other, and buffers
  are bounded.
- **Canvas editor** (`TipTap`, `TipTapLoops`, `InlineRoundTrip`, `DocRoundTrip`, `EditorLines`,
  `EditStyles`, `LoadedLines`, `EditorSteps`, `StyleRuns`, `CommandMeaning`, `GoodMarks`,
  `Reading`, `Painting`, `Editor`). The line list, its mirrors (flat
  text, line starts, styled marks, cached document), every command as a step function that the class
  carries out, structured edits as refinements of string splices, and the TipTap printer and parser as
  mutual inverses up to exactly stated conditions, over whole runs; every command said again in positions,
  loading against a plain depth-first reading of the tree, and painting against the marks.
- **Audio** (`VoiceEncoder`, `ResamplerLaws`, `PcmStream`, `Player`, `Playback`, `Seek`, `StallDetector`,
  `Wav`, `WavChunks`). The streaming resampler against a batch one, and that one against laws of signals, Ogg Opus granules, the chunk list shared by decoder and
  player, the player as a function that the class refines, padding of underruns to whole frames,
  seeks through a shared cursor, the stall watchdog, and the WAV writer and reader. Samples are
  reals, and positions are integers in 1/48000ths of a frame.
- **Calendar** (`ServerClock`). The closed-form day count against a calendar that counts day by day,
  and the date header parser (IMF-fixdate, section 7.1.1.1 of RFC 7231).
- **Protocol loops** (`Presign`, `IceQueue`). Batched synchronisation with retries, and queuing of ICE
  candidates, under every pattern of successes and failures.
- **Old documents** (`Quill`, `OldDocuments`, `OldLines`). Quill operations turned into TipTap trees without losing
  anything, and what of them is there once the editor has read the tree.

`Basics` and `Arithmetic` hold shared types and division facts. Code that updates state in place is a
class or a loop here too, proved against a function; the lemmas are about those functions.

Where the code does not meet the obvious reading of a property, the model follows the code, and the
property is proved with the exact condition under which it does hold:

- An empty message is framed as a lone zero byte, which is how a ping starts
  (`Frames.EmptyMessageIsAPing`); other packets come back exactly under
  `Frames.PacketRoundTripsExactly`.
- A line break typed while the caret is on an image line goes into the image's invisible text and is
  lost on the next load, and so is white space around an inserted image's source
  (`EditorSteps.BreakOnImageIsLost`, `EditorSteps.UntrimmedSourceIsLost`). Nothing else spoils an image
  (`EditorSteps.StepKeepsImagesExactly`), and documents reload with the same shape exactly when this
  has not happened (`DocRoundTrip.ShapeSurvivesExactly`, `EditorSteps.RunReloadsExactly`).
- A seek that another thread stores during the call that returns to the start of a looping stream is
  lost, and so is one that names the sample being played (`Player.SeekBeforeReturnIsLost`,
  `Player.EarlyStoreExactly`).
- A seek that is taken up while a padding frame is half out, or whose target is below the channel phase,
  puts the following samples on the wrong channel (`Player.SeekMidFrameSwapsChannels`,
  `Player.SeekBelowPhaseSwapsChannels`, `Player.SampleChannelExactly`, `Seek.AlignPhaseExactly`).
- At every rate above 96 kHz, and at none below, the resampler can drain more than it holds
  (`VoiceEncoder.RateFitsExactly`, `VoiceEncoder.DrainOverruns`).
- Enter and then Backspace do not give back every style: in a list a mark that goes across the caret is
  cut (`EditStyles.StylesComeBackExactly`), elsewhere every mark that ends after the caret is lost, and an
  image is removed (`StyleRuns.EnterThenBackspaceExactly`, `StyleRuns.PartedBoldIsLost`,
  `StyleRuns.EnterThenBackspaceDropsImage`).
- Typing into styled text takes the style off all of it, and deleting the separator before a styled line
  takes off all its styles (`EditStyles.ReplacementStylesExactly`, `StyleRuns.TypedIntoBoldIsLost`).
- Toggling off a part of a mark clears all of it (`EditStyles.ToggleOutsideExactly`,
  `StyleRuns.ToggledPartIsLost`).
- In old Quill documents a plain line that follows a list becomes the last item of that list
  (`Quill.PlainLineExactly`, `Quill.ParagraphAfterListIsTakenIn`), and underline is lost when they are
  opened (`OldDocuments.StylesOfAttributes`).

## Model

| member | source | states |
|---|---|---|
| Varint.ReadVarintExactly | crates/mezon-client/src/abridged_tcp_adapter.rs:168-182 | The reader succeeds with length n exactly when the first n bytes are a varint of at most ten bytes, and its value is theirs cut to 64 bits |
| Varint.ReadVarintLoop | crates/mezon-client/src/abridged_tcp_adapter.rs:168-182 | The shift loop, with bits pushed past the top lost at the tenth byte, computes the 64-bit value of the varint |
| Varint.ReadVarintLocal | crates/mezon-client/src/abridged_tcp_adapter.rs:168-182 | Bytes after a varint never change what is read, in either direction |
| Varint.VarintRoundTrip | crates/mezon-client/src/abridged_tcp_adapter.rs:168-182 | Every 64-bit value written as a shortest varint is read back, whatever follows |
| Protobuf.ProtobufMessageLen | crates/mezon-client/src/abridged_tcp_adapter.rs:217-249 | The loop over pos, with every early exit, computes the recursive field walk |
| Protobuf.MessageLenExactly | crates/mezon-client/src/abridged_tcp_adapter.rs:217-249 | The walk answers n exactly when the first n bytes are well-formed fields and what follows is nothing or no field |
| Protobuf.FieldsParse | crates/mezon-client/src/abridged_tcp_adapter.rs:217-249 | A run of valid fields is consumed whole and the walk goes on with what follows |
| Protobuf.WalkedIsFields | crates/mezon-client/src/abridged_tcp_adapter.rs:217-249 | What a successful walk consumed is a run of valid fields |
| Protobuf.PaddingIsStripped | crates/mezon-client/src/abridged_tcp_adapter.rs:217-249 | Any zero padding is cut off exactly when the padded message was well formed |
| Protobuf.EncodersAreValid | crates/mezon-client/src/abridged_tcp_adapter.rs:217-249 | Fields as protobuf writers emit them, of all four wire types, are valid fields of the walk; a fixed-width value exactly in its own width |
| Frames.DecodeFrameStable | crates/mezon-client/src/abridged_tcp_adapter.rs:404-513 | Once a prefix suffices for a frame or a reset, no further bytes change the verdict, for all five frame shapes |
| Frames.NeedMoreIsBounded | crates/mezon-client/src/abridged_tcp_adapter.rs:404-513 | A buffer that waits for more bytes is shorter than an 11-byte header and 16 MiB |
| Frames.BuildPacket | crates/mezon-client/src/abridged_tcp_adapter.rs:889-941 | The packet built in place is the header and padded message; messages over the cap are refused |
| Frames.WireLenIsTrue | crates/mezon-client/src/abridged_tcp_adapter.rs:133-157 | The advertised wire length is the packet's true length, and the cap is exceeded exactly above 4092 message bytes |
| Frames.PacketDecodes | crates/mezon-client/src/abridged_tcp_adapter.rs:399-513 | Every packet of a non-empty message decodes to one whole frame of its own length |
| Frames.PacketRoundTripsExactly | crates/mezon-client/src/abridged_tcp_adapter.rs:399-513 | A packet gives back its message exactly when the message is well formed, or needs no padding and ends inside a field |
| Frames.EmptyMessageIsAPing | crates/mezon-client/src/abridged_tcp_adapter.rs:889-941 | The packet of an empty message is the ping lead byte, and is read as a ping with the two bytes after it |
| Frames.WireBytesDecode | crates/mezon-client/src/abridged_tcp_adapter.rs:975-998 | A ping or a well-formed message decodes to itself with anything after it |
| Frames.StreamRoundTrip | crates/mezon-client/src/abridged_tcp_adapter.rs:404-513 | Any list of pings and well-formed messages of at most 4092 bytes decodes to exactly that list, nothing left over |
| ServerFrames.ResponseDecodes | crates/mezon-client/src/abridged_tcp_adapter.rs:418-442 | For every request, code, low word and payload up to 16 MiB the bytes of a response frame give those fields, final exactly for a low word of 0xff, whatever follows |
| ServerFrames.ResponseResetsExactly | crates/mezon-client/src/abridged_tcp_adapter.rs:418-430 | A response header resets the connection exactly when it announces more than 16 MiB, and waits exactly while bytes are missing |
| ServerFrames.WebsocketDecodes | crates/mezon-client/src/abridged_tcp_adapter.rs:468-510 | A websocket frame of up to 1 MiB gives its payload whole, in all three forms of length |
| ServerFrames.WebsocketResetsExactly | crates/mezon-client/src/abridged_tcp_adapter.rs:468-503 | A websocket header resets the connection exactly when it announces more than 1 MiB |
| ServerFrames.UnitsDecode | crates/mezon-client/src/abridged_tcp_adapter.rs:443-467 | Short and extended frames of up to 1 MiB give their payload up to the end of its last whole field |
| ServerFrames.ExtendedResetsExactly | crates/mezon-client/src/abridged_tcp_adapter.rs:453-461 | An extended header resets the connection exactly when it announces more than 1 MiB |
| ServerFrames.OtherLeadsReset | crates/mezon-client/src/abridged_tcp_adapter.rs:468-512 | Any other first byte, and a masked websocket frame, resets the connection, and nothing else does so for that reason |
| IoLoop.IoLoopState.constructor | crates/mezon-client/src/abridged_tcp_adapter.rs:351-358 | A new connection has an empty buffer and no partial responses |
| IoLoop.IoLoopState.HandleData | crates/mezon-client/src/abridged_tcp_adapter.rs:516-522 | One read leaves messages, partial responses and residual buffer, or the reset, that the pure run on old buffer plus data gives |
| IoLoop.IoLoopState.ProcessRawBuffer | crates/mezon-client/src/abridged_tcp_adapter.rs:524-625 | The loop with its running offset is the pure run; a reset empties buffer and partial responses |
| IoLoop.IoLoopState.Dispatch | crates/mezon-client/src/abridged_tcp_adapter.rs:566-623 | One frame changes partial responses and messages as the pure step says, overflow and undecodable payloads included |
| IoLoop.IoLoopState.ReadLoop | crates/mezon-client/src/abridged_tcp_adapter.rs:516-626 | Successive reads leave the state that one read of all the bytes leaves |
| IoLoop.DriveSplits | crates/mezon-client/src/abridged_tcp_adapter.rs:524-625 | Processing a prefix and later the rest is processing the whole |
| IoLoop.FragmentationIndependence | crates/mezon-client/src/abridged_tcp_adapter.rs:516-626 | For every stream and every cutting into reads, messages, residual buffer, partial responses and reset are those of one read |
| IoLoop.CutsDoNotMatter | crates/mezon-client/src/abridged_tcp_adapter.rs:516-626 | Two cuttings of the same bytes cannot be told apart |
| IoLoop.DriveSettles | crates/mezon-client/src/abridged_tcp_adapter.rs:404-626 | The residual buffer is always a single incomplete frame, shorter than 11 bytes and 16 MiB |
| IoLoop.DriveIsFold | crates/mezon-client/src/abridged_tcp_adapter.rs:524-625 | The interleaved loop is the frame decoder followed by a fold over the frames |
| IoLoop.WrittenIsRead | crates/mezon-client/src/abridged_tcp_adapter.rs:516-626 | What one side writes, in whatever pieces it arrives, is processed as exactly those pings and messages; what the application is handed for them is the next row |
| Delivery.SentIsDelivered | crates/mezon-client/src/abridged_tcp_adapter.rs:404-626 | Whatever pings, realtime messages and responses a server sends, in whatever pieces: the application is handed exactly one message per item, in order, with its request, code and whole body, nothing for realtime requests outside 16 bits, and the failure code for a response beyond 16 MiB |
| Delivery.ResponseDriven | crates/mezon-client/src/abridged_tcp_adapter.rs:571-603 | A response in any number of pieces is delivered once and whole, under its request and the code of its last piece |
| Delivery.BodyDelivered | crates/mezon-client/src/abridged_tcp_adapter.rs:204-215 | A realtime message is delivered whole under the 32-bit number of its first field, under 0 when there is none, under the decoded one when the field breaks off, and not at all outside 16 bits |
| Delivery.ClientWritesAlike | crates/mezon-client/src/abridged_tcp_adapter.rs:889-998 | Packets and pings that the client writes are those of a server |
| Reassembly.NonInterference | crates/mezon-client/src/abridged_tcp_adapter.rs:571-603 | Messages and partial response of a request are those of a connection that carried its frames only |
| Reassembly.PendingIsSinceLastEnd | crates/mezon-client/src/abridged_tcp_adapter.rs:571-603 | Pending bytes are the joined payloads since the request's last final or overflowing frame |
| Reassembly.ChunksArePending | crates/mezon-client/src/abridged_tcp_adapter.rs:571-603 | The chunk list of a request holds exactly the pending bytes, over every interleaving |
| Reassembly.RawFrameDelivers | crates/mezon-client/src/abridged_tcp_adapter.rs:571-603 | A final frame delivers the joined payloads since the last end, an overflowing one the failure code, any other nothing |
| Reassembly.ReassemblyIsBounded | crates/mezon-client/src/abridged_tcp_adapter.rs:571-603 | At most 16 MiB are buffered per request between frames, and no delivered body exceeds 32 MiB |
| Reassembly.DecodedPayloadsAreBounded | crates/mezon-client/src/abridged_tcp_adapter.rs:417-442 | Frames that come out of the decoder meet the payload bound the previous row needs |
| InlineRoundTrip.InlineTextRoundTrip | crates/mezon-canvas/src/editor.rs:4163-4209 | The text read back from printed inline content is the text printed, for any marks |
| InlineRoundTrip.InlineStyles | crates/mezon-canvas/src/editor.rs:4182-4249 | At every position off line breaks the marks read back give the same styles in the same order |
| InlineRoundTrip.InlineJsonRoundTrip | crates/mezon-canvas/src/editor.rs:3936-3981 | Text, styles and mark ranges survive printing and parsing, and printing the result again gives the same nodes |
| DocRoundTrip.PrintedDocRereads | crates/mezon-canvas/src/editor.rs:3994-4043 | What the parser makes of any printed document, line by line, with no condition on the lines |
| DocRoundTrip.TrimIsIdempotent | crates/mezon-canvas/src/view.rs:591-602 | Trimming a trimmed source changes nothing |
| DocRoundTrip.TrimExactly | crates/mezon-canvas/src/view.rs:591-602 | Trimming takes the white space from both ends of a source and nothing else |
| DocRoundTrip.ShapeSurvivesExactly | crates/mezon-canvas/src/editor.rs:3732-4161 | Line count, blocks, texts and image sources survive exactly when every image line has empty text and a trimmed, non-empty source |
| DocRoundTrip.DocumentRoundTrip | crates/mezon-canvas/src/editor.rs:3732-4249 | With in-bounds, non-empty marks the document comes back with the same shape and styles, and prints to the identical tree |
| TipTapLoops.MarksForRangeLoop | crates/mezon-canvas/src/editor.rs:4221-4249 | The loop prints the marks that touch the range, in list order |
| TipTapLoops.BoundsOf | crates/mezon-canvas/src/editor.rs:4182-4196 | The collected bounds are both ends and exactly the mark boundaries inside the segment |
| TipTapLoops.TextNodesForRange | crates/mezon-canvas/src/editor.rs:4182-4209 | Sorting, removing duplicates and walking the windows gives the longest runs no mark boundary cuts |
| TipTapLoops.InlineJsonLoop | crates/mezon-canvas/src/editor.rs:4163-4180 | The segment loop with its running offset computes the inline nodes |
| TipTapLoops.CollectLines | crates/mezon-canvas/src/editor.rs:4045-4085 | The collected lines are the longest stretch of the same group |
| TipTapLoops.LinesToTipTapJson | crates/mezon-canvas/src/editor.rs:3994-4043 | The printer loop computes the printed document |
| TipTapLoops.InlineToText | crates/mezon-canvas/src/editor.rs:3936-3946 | The loop computes the text of inline content |
| TipTapLoops.InlineToMarks | crates/mezon-canvas/src/editor.rs:3952-3981 | The loop with its running offset computes the marks of inline content |
| TipTapLoops.FlattenMixedInlines | crates/mezon-canvas/src/editor.rs:3742-3776 | One line per image and one per stretch without images, in order |
| TipTapLoops.FlattenBlock | crates/mezon-canvas/src/editor.rs:3778-3858 | The recursive pushes compute the lines of a block of any kind |
| TipTapLoops.FlattenList | crates/mezon-canvas/src/editor.rs:3860-3898 | The first paragraph of the list, and no other, takes the start number |
| TipTapLoops.FlattenTaskList | crates/mezon-canvas/src/editor.rs:3900-3930 | The nested loops compute the task lines |
| TipTapLoops.LinesFromDocLoop | crates/mezon-canvas/src/editor.rs:3732-3740 | The loop over blocks computes the lines of a document |
| Reading.LoadedAsRead | crates/mezon-canvas/src/editor.rs:3732-3992 | Every document, however nested, is loaded as it reads depth first: every character with its styles and block, and every image, once and in order; passed over are other nodes of lists, blocks of tasks that are no paragraphs, marks in code, images in titles and code, and what inline nodes of other kinds hold |
| Reading.NumberGoesToFirst | crates/mezon-canvas/src/editor.rs:3860-3898 | The number of a list goes to the first paragraph that one of its items holds itself, and to no other line |
| TipTapLoops.OrderedRunStartIx | crates/mezon-canvas/src/editor.rs:3038-3044 | The backward scan finds the first line of the run of ordered items |
| TipTapLoops.NumberShownIsNumberPrinted | crates/mezon-canvas/src/editor.rs:3038-3050 | The number shown beside an item is the printed list's start plus the item's place in it |
| EditorLines.SpliceContent | crates/mezon-canvas/src/editor.rs:519-558 | Replacing a stretch of lines replaces the matching stretch of the flat text, separators included |
| EditorLines.LocateExact | crates/mezon-canvas/src/editor.rs:680-695 | The line and column of an offset are a position whose start plus column is the offset |
| EditorLines.OffsetRoundTrip | crates/mezon-canvas/src/editor.rs:680-702 | Offset to line and column and back is the identity on every offset of the text |
| EditorLines.PositionRoundTrip | crates/mezon-canvas/src/editor.rs:680-702 | Line and column to offset and back is the identity on every position |
| EditorLines.ShiftMarksLoop | crates/mezon-canvas/src/editor.rs:3686-3702 | The in-place pass computes the shifted mark list |
| EditorLines.ShiftedMarksKeepText | crates/mezon-canvas/src/editor.rs:3686-3702 | Every mark kept by an edit lies in the new text and, when it lay outside the edit, covers the same characters |
| EditorLines.ReplaceLinesContent | crates/mezon-canvas/src/editor.rs:598-678 | Merging the lines of a range is a splice of the flat text |
| EditorLines.ReplaceLinesMarks | crates/mezon-canvas/src/editor.rs:598-678 | A replacement leaves every mark inside its line |
| EditorLines.SplitLinesContent | crates/mezon-canvas/src/editor.rs:726-793 | Off images and empty list items, Enter inserts exactly one newline |
| EditorLines.JoinLinesContent | crates/mezon-canvas/src/editor.rs:806-821 | Joining removes exactly the separator |
| EditorLines.JoinAfterSplit | crates/mezon-canvas/src/editor.rs:726-821 | Joining right after a split restores the content and the text and block of every line |
| EditorLines.ToggleMeaning | crates/mezon-canvas/src/editor.rs:3704-3723 | Toggling flips the kind over the whole selection, leaves other kinds alone, and never adds the kind elsewhere |
| EditStyles.StylesComeBackExactly | crates/mezon-canvas/src/editor.rs:726-821 | Joining right after a split gives back every style of every line exactly when no mark goes across the column |
| EditStyles.ToggleOutsideExactly | crates/mezon-canvas/src/editor.rs:3704-3723 | Toggling leaves every style outside the selection alone exactly when no mark it clears reaches beyond the selection |
| EditStyles.ReplacementStylesExactly | crates/mezon-canvas/src/editor.rs:641-667 | A replacement leaves every surviving character its styles exactly when no mark that also covers something beside the range reaches into it, or, across lines, when no mark goes over the first column and nothing after the second is styled; what is inserted has no style |
| StyleRuns.EnterThenBackspaceExactly | crates/mezon-canvas/src/editor.rs:598-867 | Enter and then Backspace give back every text, block and the caret, and every style exactly when, in a list, no mark goes across the caret and, elsewhere, nothing after it is styled |
| StyleRuns.EnterThenBackspaceDropsImage | crates/mezon-canvas/src/editor.rs:726-732 | On an image line Enter and then Backspace leave an empty paragraph in place of the image |
| StyleRuns.PartedBoldIsLost | crates/mezon-canvas/src/editor.rs:726-793 | From a new editor, in a block of any kind but image and task: bold text, Enter in its middle, Backspace, and a style that is gone |
| StyleRuns.TypedIntoBoldIsLost | crates/mezon-canvas/src/editor.rs:3686-3702 | From a new editor: a character typed into bold text, and no bold left |
| StyleRuns.ToggledPartIsLost | crates/mezon-canvas/src/editor.rs:3704-3723 | From a new editor: bold taken off one of two bold characters, and no bold left |
| EditorLines.OverSelectionKeeps | crates/mezon-canvas/src/editor.rs:879-901 | Styling a selection keeps every text and block and leaves marks inside their lines |
| EditorLines.InsertImageKeepsText | crates/mezon-canvas/src/editor.rs:442-517 | Placing an image keeps the text before and after it, in order |
| LoadedLines.SrcIsTrimmed | crates/mezon-canvas/src/view.rs:591-602 | An image source read from attributes is trimmed and not empty |
| LoadedLines.DocIsLoaded | crates/mezon-canvas/src/editor.rs:3732-3981 | Every parsed document, however nested, has its marks inside its lines and images that are a source and nothing else |
| LoadedLines.BreakPlainExactly | crates/mezon-canvas/src/editor.rs:795-804 | A typed line break leaves images loadable exactly when it is not typed on an image line |
| LoadedLines.InsertPlainExactly | crates/mezon-canvas/src/editor.rs:442-517 | An inserted image loads again as it was exactly when its source has no white space around it |
| LoadedLines.ReplacementPlain | crates/mezon-canvas/src/editor.rs:598-678 | No replacement or deletion spoils an image line |
| EditorSteps.StepIsSane | crates/mezon-canvas/src/editor.rs:395-983 | Every step keeps at least one line, every mark inside its line, and an ordered selection inside the text |
| EditorSteps.DeletedContent | crates/mezon-canvas/src/editor.rs:598-678 | Off images, a deletion removes exactly the text between the two offsets and leaves the caret at the first |
| EditorSteps.SelectionForgotten | crates/mezon-canvas/src/editor.rs:1336-1396 | A deletion depends on the lines only, not on what was selected before |
| CommandMeaning.DeleteTakesImage | crates/mezon-canvas/src/editor.rs:1369-1387 | Delete on an image, or at the end of a line above one, takes that image; every other line stays, in order, and the caret is where the image was |
| CommandMeaning.DeleteTakesText | crates/mezon-canvas/src/editor.rs:1388-1396 | Everywhere else Delete takes exactly the selected text or the text up to the boundary, or the images that this range touches |
| CommandMeaning.BackspaceTakesImage | crates/mezon-canvas/src/editor.rs:1336-1350 | The same for Backspace on an image and at the start of a line below one |
| CommandMeaning.BackspaceTakesText | crates/mezon-canvas/src/editor.rs:1351-1368 | Off images and starts of items Backspace takes exactly the selected text or the text from the boundary on, or the images that this range touches |
| CommandMeaning.BackspaceAtItem | crates/mezon-canvas/src/editor.rs:806-867 | At the start of an item: an empty one goes, one that no item of its list precedes becomes a paragraph, any other joins the item above with every character's styles |
| CommandMeaning.ImagesGo | crates/mezon-canvas/src/editor.rs:611-632 | A deletion over images takes the images on the lines it touches and leaves all other lines and texts as they were |
| CommandMeaning.EnterParts | crates/mezon-canvas/src/editor.rs:743-793 | Enter parts the line at the caret: both texts, blocks and styles, the tick of a task left out; in code it adds a newline; the caret is one further |
| CommandMeaning.EnterElsewhere | crates/mezon-canvas/src/editor.rs:726-742 | Enter on an image adds an empty paragraph below it; in an empty item it ends the list |
| CommandMeaning.BreakGoesIn | crates/mezon-canvas/src/editor.rs:795-804 | A line break goes into the line at the caret and nothing else changes; styles are kept exactly when no mark goes across the caret |
| CommandMeaning.TypedReplaces | crates/mezon-canvas/src/editor.rs:598-678 | Typing replaces exactly the selected text, in the block where the selection starts; on an image nothing is typed |
| CommandMeaning.NothingPasted | crates/mezon-canvas/src/editor.rs:598-678 | Pasting nothing takes the selected text, or the images that the selection touches |
| CommandMeaning.MarkedMeaning | crates/mezon-canvas/src/editor.rs:879-1127 | Styling touches every selected character of every line: toggled, linked to the target, or without link; other lines and other kinds stay |
| CommandMeaning.BlocksMeaning | crates/mezon-canvas/src/editor.rs:903-956 | A block kind is given to every line of the selection but images, tasks unticked, numbers kept only below an ordered item; choosing the list that all are in ends it |
| CommandMeaning.CodeMeaning | crates/mezon-canvas/src/editor.rs:958-983 | Code on all lines of the selection is turned off, otherwise it is turned on; images stay |
| CommandMeaning.ImageLandsAtCaret | crates/mezon-canvas/src/editor.rs:442-517 | An inserted image lands at the caret, in place of an empty line or between the two parts of a line, and is followed by a line that is no image, where the caret goes |
| CommandMeaning.SelectingMeaning | crates/mezon-canvas/src/editor.rs:560-596 | Moving puts the caret where it is sent, selecting leaves the other end, selecting all takes everything |
| CommandMeaning.LockedAndOpened | crates/mezon-canvas/src/editor.rs:300-428 | Locking forgets the selection and unlocking keeps it; opening a document replaces all lines |
| Painting.PaintedExactly | crates/mezon-canvas/src/editor.rs:519-558 | A character is painted in a style exactly when a mark of its line covers it, or, for code, when its line is code |
| EditorSteps.StepKeepsImagesExactly | crates/mezon-canvas/src/editor.rs:442-983 | A step leaves images loadable exactly when it neither breaks a line inside an image, nor inserts a source with white space around it, nor makes an image of a line that holds none |
| EditorSteps.KeptRunIsPlain | crates/mezon-canvas/src/editor.rs:442-983 | Over a whole run without such steps every image stays a source and nothing else |
| EditorSteps.RunReloadsExactly | crates/mezon-canvas/src/editor.rs:3732-4161 | The document of any run loads back with the same blocks, texts and images exactly when its images are plain |
| EditorSteps.BreakOnImageIsLost | crates/mezon-canvas/src/editor.rs:795-804 | From a new editor: an image, a line break typed on it, and a document that does not load back |
| EditorSteps.UntrimmedSourceIsLost | crates/mezon-canvas/src/editor.rs:442-517 | From a new editor: an image with a space before its source, and a document that does not load back |
| GoodMarks.LoadedGoodExactly | crates/mezon-canvas/src/editor.rs:3732-3981 | A loaded document, however nested, has no mark over nothing exactly when no text node without text that is read with marks carries one |
| GoodMarks.StepKeepsMarks | crates/mezon-canvas/src/editor.rs:395-983 | Every edit keeps every mark over something; loading does exactly when the document is clean |
| GoodMarks.RunSurvivesSaving | crates/mezon-canvas/src/editor.rs:3732-4249 | After any run with clean loads and kept images, saving and loading gives back every block, text, image and style, and saving again the identical document |
| Editor.CanvasEditor.constructor | crates/mezon-canvas/src/editor.rs:149-159 | A new editor is one empty paragraph with all mirrors in step |
| Editor.CanvasEditor.RebuildBuffer | crates/mezon-canvas/src/editor.rs:519-558 | Flat text, line starts and styled marks become what the lines say, and the cached document is dropped |
| Editor.CanvasEditor.DocJson | crates/mezon-canvas/src/editor.rs:429-436 | The document handed out, cached or not, is a fresh print of the lines |
| Editor.CanvasEditor.OffsetToLineCol | crates/mezon-canvas/src/editor.rs:680-695 | The scan over line starts finds the clamped offset's line and column, whose start and column add up to it |
| Editor.CanvasEditor.SelectTo | crates/mezon-canvas/src/editor.rs:582-596 | The end that is not the caret stays, the selection is ordered, and the caret is where it was sent |
| Editor.CanvasEditor.ReplaceTextInRange | crates/mezon-canvas/src/editor.rs:598-678 | Deleting over images removes the image lines and nothing else, an edit that starts on an image does nothing, any other edit is a string splice with the caret after the inserted text |
| Editor.CanvasEditor.RemoveLine | crates/mezon-canvas/src/editor.rs:704-724 | The line goes, never leaving no line, and the caret starts the line that takes its place, or the text when the last line went |
| Editor.CanvasEditor.SplitParagraph | crates/mezon-canvas/src/editor.rs:726-793 | A text line gains exactly one newline at the caret; an image gets a line below it; an empty list item becomes a paragraph |
| Editor.CanvasEditor.InsertHardBreak | crates/mezon-canvas/src/editor.rs:795-804 | Exactly one newline at the caret, in the same line, with its marks shifted |
| Editor.CanvasEditor.JoinLineWithPrevious | crates/mezon-canvas/src/editor.rs:806-821 | Exactly the separator goes and the caret is at the seam |
| Editor.CanvasEditor.LiftListLineToParagraph | crates/mezon-canvas/src/editor.rs:823-831 | The item becomes a paragraph, the content stays, and the caret starts the line |
| Editor.CanvasEditor.RemoveEmptyListLine | crates/mezon-canvas/src/editor.rs:833-845 | The first line is lifted; any other goes and the caret ends the line above |
| Editor.CanvasEditor.HandleListBackspaceAtLineStart | crates/mezon-canvas/src/editor.rs:847-869 | List lines and only they are handled; lines and caret become those of the removal, the lift or the join |
| Editor.CanvasEditor.Backspace | crates/mezon-canvas/src/editor.rs:1336-1367 | The lines and the selection become those of the step function in every branch: an image at or right before the caret goes, a list start is handled, otherwise the selection or the text back to the boundary is deleted |
| Editor.CanvasEditor.Delete | crates/mezon-canvas/src/editor.rs:1369-1396 | The mirror image of Backspace for what follows the caret |
| Editor.CanvasEditor.MarkSelection | crates/mezon-canvas/src/editor.rs:879-901 | Styling changes the selected lines only, and content and selection not at all |
| Editor.CanvasEditor.SetBlockKind | crates/mezon-canvas/src/editor.rs:903-956 | Block kinds change as the two passes say, list numbering included, and content and selection stay |
| Editor.CanvasEditor.ToggleCodeBlock | crates/mezon-canvas/src/editor.rs:958-983 | Selected text lines become code, or paragraphs when all were code; images stay |
| Editor.CanvasEditor.InsertImageAt | crates/mezon-canvas/src/editor.rs:442-517 | The image stands on its own line, a text line follows it, and the caret starts that line |
| Editor.CanvasEditor.SetReadOnly | crates/mezon-canvas/src/editor.rs:300-311 | Turning read-only on collapses the selection to the start; setting it to what it is changes nothing |
| Editor.CanvasEditor.SetDoc | crates/mezon-canvas/src/editor.rs:395-418 | The lines are those of the document, or one empty paragraph, with all mirrors in step |
| Editor.CanvasEditor.Execute | crates/mezon-canvas/src/editor.rs:395-983 | Every command leaves exactly the lines, selection and read-only flag of its step, with all mirrors in step |
| Editor.RunFromNew | crates/mezon-canvas/src/editor.rs:395-983 | Any commands lead exactly to the fold of the steps; the document handed out is a fresh print of its lines and loads back with the same shape exactly when all images are plain |
| VoiceEncoder.MonoSplits | crates/mezon-audio/src/encode.rs:95-101 | Downmixing whole frames in two pushes is downmixing them in one |
| VoiceEncoder.OutputCountExact | crates/mezon-audio/src/encode.rs:103-122 | Sample j exists exactly when its position lies before the last input frame, so n frames give the ceiling of (n-1)*48000/rate |
| VoiceEncoder.ResampledGrows | crates/mezon-audio/src/encode.rs:103-122 | More input only adds output; no earlier sample changes |
| VoiceEncoder.NextSample | crates/mezon-audio/src/encode.rs:109-116 | The sample under the cursor is the next sample of the batch result |
| ResamplerLaws.WholePositionIsSample | crates/mezon-audio/src/encode.rs:103-122 | At a whole number of frames the output is that very input sample |
| ResamplerLaws.RampIsKept | crates/mezon-audio/src/encode.rs:103-122 | A ramp is resampled to the same ramp over time |
| ResamplerLaws.ResamplingAdds | crates/mezon-audio/src/encode.rs:103-122 | The sum of two sounds is resampled to the sum of the two resampled |
| ResamplerLaws.ResamplingScales | crates/mezon-audio/src/encode.rs:103-122 | A sound times a factor is resampled to the resampled sound times the factor |
| ResamplerLaws.ResamplingIsLocal | crates/mezon-audio/src/encode.rs:103-122 | An output sample depends on its two neighbouring frames only |
| ResamplerLaws.MonoIsMean | crates/mezon-audio/src/encode.rs:95-101 | Each sample of the downmix, times the channels, is the sum of its frame |
| ResamplerLaws.MonoOfShortFrame | crates/mezon-audio/src/encode.rs:95-101 | A short last frame is averaged over what it has |
| ResamplerLaws.MeansAreMono | crates/mezon-audio/src/stream.rs:143-207 | On whole frames the downmix of the player is that of the recorder |
| ResamplerLaws.MeansDropRest | crates/mezon-audio/src/stream.rs:143-207 | Samples of a last partial frame are dropped by the player's downmix |
| VoiceEncoder.AllProduced | crates/mezon-audio/src/encode.rs:109-116 | When the loop stops every sample of the batch result is out |
| VoiceEncoder.RateFitsExactly | crates/mezon-audio/src/encode.rs:117-121 | The drain never exceeds the buffer, however many frames have come, exactly up to 96 kHz |
| VoiceEncoder.FastRateOverruns | crates/mezon-audio/src/encode.rs:103-121 | At any higher rate, once one frame less than a second has come, the next position is at the end of that second and the drain is out of range |
| VoiceEncoder.DrainFitsExactly | crates/mezon-audio/src/encode.rs:117-121 | At any rate, however much was drained before, the drain is in range exactly when the next position lies before the end of one more frame |
| VoiceEncoder.DrainOverruns | crates/mezon-audio/src/encode.rs:117-121 | At 144 kHz, with two frames and nothing drained, the cursor is at the next position and the drain exceeds the buffer |
| VoiceEncoder.Recorder.constructor | crates/mezon-audio/src/encode.rs:35-62 | For any rate and channels, raised to one: nothing produced, nothing failed |
| VoiceEncoder.Recorder.Push | crates/mezon-audio/src/encode.rs:95-101 | At any rate and however the input is divided, what has been queued is the batch resampling of all of it; the call comes back exactly when the drain is in range |
| VoiceEncoder.Recorder.Resample | crates/mezon-audio/src/encode.rs:103-122 | The loop appends exactly the batch samples not yet produced, and the drain after it is in range exactly as the condition says |
| VoiceEncoder.Recorder.InterpolateReady | crates/mezon-audio/src/encode.rs:108-116 | The loop stops with the whole batch result out and the cursor at the position of the next sample |
| VoiceEncoder.Recorder.DrainConsumed | crates/mezon-audio/src/encode.rs:117-121 | At any rate: out of range exactly when the condition fails; otherwise no sample still needed is lost and the cursor is left inside the first one |
| VoiceEncoder.Recorder.EncodeReadyFrames | crates/mezon-audio/src/encode.rs:124-132 | Packets and the open frame hold every queued sample in order and granules rise by 960; it fails exactly when a codec or container call does |
| VoiceEncoder.Recorder.EncodeFrame | crates/mezon-audio/src/encode.rs:134-149 | A success writes one packet with the granule of its position; a failure is one failed call and writes none |
| VoiceEncoder.Recorder.Finish | crates/mezon-audio/src/encode.rs:151-171 | Succeeds exactly when there are samples and no call fails; then the total is the number of samples ever queued and the final granule is the pre-skip plus that total and ends inside the last frame, as end trimming needs (section 4.4 of RFC 7845) |
| VoiceEncoder.Recorder.Record | crates/mezon-audio/src/encode.rs:95-171 | A recording succeeds exactly when its input gives samples, no call fails and every push leaves a drain in range, and then holds the batch resampling of all its input |
| PcmStream.LocateMeaning | crates/mezon-audio/src/stream.rs:71-92 | The search succeeds exactly for buffered samples and past the end of a complete stream, and finds the sample at that index of the concatenation |
| PcmStream.Stream.LocateChunk | crates/mezon-audio/src/stream.rs:71-92 | The loop with its running cursor computes the search |
| PcmStream.Stream.ChunkAt | crates/mezon-audio/src/stream.rs:94-101 | Ready below the chunk count, then complete or pending |
| PcmStream.Stream.Push | crates/mezon-audio/src/stream.rs:103-107 | One chunk appended and its samples counted |
| PcmStream.DecodeThread | crates/mezon-audio/src/stream.rs:143-207 | Without packets an error; otherwise the chunks joined are the stored packets joined, mixed down where channels differ, none empty, all but the last of at least 2048 frames, and whole frames when the packets are |
| Playback.Source.JumpTo | crates/mezon-audio/src/playback.rs:495-505 | A jump succeeds exactly for buffered targets and any target past a complete stream, and stands at the target |
| Playback.Source.FollowCursor | crates/mezon-audio/src/playback.rs:521-525 | A stored cursor of any value is taken up exactly when it is elsewhere and can be located |
| Playback.Source.Fetch | crates/mezon-audio/src/playback.rs:526-569 | With stores by other threads before and after a return to the start: exactly the value, playhead, padding and cursor of the function over the joined samples; at most one return |
| Playback.Source.Next | crates/mezon-audio/src/playback.rs:521-570 | Following the cursor and fetching make exactly one step of the player function, and the end is remembered until a jump |
| Playback.Source.Retarget | crates/mezon-audio/src/playback.rs:851-870 | A seek from the user interface succeeds exactly for buffered targets and any target of a complete, non-empty stream; then it stores the aligned target of the function, otherwise nothing |
| Playback.Play | crates/mezon-audio/src/playback.rs:521-570 | Any interleaving of pushes, the end, seeks and reads puts out exactly the list the function gives, chunk boundaries making no difference |
| Player.HeardIsRepeated | crates/mezon-audio/src/playback.rs:521-570 | Without seeks, looping or not: what is heard is the pushed stream once for every return to the start and then its part up to the playhead; only a finished stream returns; silence comes in whole frames; a looping stream ends only when it is empty |
| Player.HeardIsPrefix | crates/mezon-audio/src/playback.rs:521-570 | Without seeks and looping: what is heard is the pushed stream up to the playhead, silence comes in whole frames, and the end only after everything |
| Player.PaddingExactly | crates/mezon-audio/src/playback.rs:541-553 | Silence is put out exactly to complete a frame of silence, or when nothing is buffered and more may come |
| Player.BufferedIsHeard | crates/mezon-audio/src/playback.rs:526-553 | A buffered sample is heard at once, or after the one zero that completes a frame |
| Player.EarlyStoreExactly | crates/mezon-audio/src/playback.rs:521-570 | A store by another thread before a possible return to the start is still there after the call exactly when no return follows and it does not name the sample being played; after a return the cursor is 1 whatever was stored |
| Player.LateStoreExactly | crates/mezon-audio/src/playback.rs:531-539 | A later store is lost exactly when it names the sample being played |
| Player.SeekBeforeReturnIsLost | crates/mezon-audio/src/playback.rs:554-563 | Looping: a seek stored during the call that returns to the start is lost, at a concrete run |
| Player.SampleChannelExactly | crates/mezon-audio/src/playback.rs:521-570 | In any run, with any seeks and stores, a sample leaves on its own channel exactly when the slips of jumps and returns up to it add up to whole frames |
| Player.SeekSlipExactly | crates/mezon-audio/src/playback.rs:392-402 | A seek elsewhere slips whole frames exactly when the padding is whole frames and the target is not below the phase, or neither |
| Player.SeekIsHeard | crates/mezon-audio/src/playback.rs:851-870 | A seek to a buffered sample is heard at the next call: that very sample, or in stereo the one before it in its frame |
| Player.CleanSeeksKeepChannels | crates/mezon-audio/src/playback.rs:521-570 | When every seek comes with whole padding and a target not below the phase, and every store that lands during a call is overwritten by a return, names the sample played or the playhead, or is of the playhead's phase with whole padding, every sample of the run leaves on its own channel |
| Player.SeekMidFrameSwapsChannels | crates/mezon-audio/src/playback.rs:521-553 | Stereo: a seek while a padding frame is half out puts the next sample on the other channel, at a concrete run |
| Player.SeekBelowPhaseSwapsChannels | crates/mezon-audio/src/playback.rs:392-402 | Stereo: a seek to a target below the phase puts the next sample on the other channel, at a concrete run |
| Seek.AlignPhaseExactly | crates/mezon-audio/src/playback.rs:392-402 | The phase is kept exactly when the target is not below it, and the move is shorter than a frame |
| Seek.AtomicCursor.CompareExchangeWeak | crates/mezon-audio/src/playback.rs:408-411 | A weak exchange: it may fail spuriously, and reports the value it saw |
| Seek.StoreAligned | crates/mezon-audio/src/playback.rs:404-413 | Whatever stores come in between, the position stored is aligned to the very value it replaced |
| Seek.RunKeeps | crates/mezon-audio/src/stream.rs:103-111 | In every interleaving the sample counter never exceeds the stored samples and nothing is undone |
| Seek.TrySeekIsSound | crates/mezon-audio/src/playback.rs:594-615 | A seek that passes its check locates its sample, or the end of a complete stream, whatever the decoder does between the reads |
| Seek.TrySeekTargetExactly | crates/mezon-audio/src/playback.rs:594-606 | A buffered target is reached but for less than a frame, on the channel that played last unless it is below that channel; beyond the end only a complete stream is sought, to its end |
| Seek.RetargetIsSound | crates/mezon-audio/src/playback.rs:851-870 | The same for a seek from outside, and the stored cursor stays inside the stored samples |
| StallDetector.OutputProgress.Observe | crates/mezon-audio/src/playback.rs:652-675 | The method updates both fields and answers as the pure step |
| StallDetector.ReportsAreFarApart | crates/mezon-audio/src/playback.rs:652-675 | Two reports are at least 15 s apart |
| StallDetector.ReportsCloseStalls | crates/mezon-audio/src/playback.rs:652-675 | Each report closes at least 3 s in which every observation was playing, playable and at the same sample |
| StallDetector.StallsAreReported | crates/mezon-audio/src/playback.rs:652-675 | A long enough stall with no recent report is always reported |
| Wav.WindowsTile | crates/mezon-audio/src/process.rs:58-89 | The averages weighted by window length add up to the prefix the windows tile: no sample twice or missing |
| Wav.WindowsGrow | crates/mezon-audio/src/process.rs:76-83 | No window is empty when the rate goes down |
| Wav.WindowsFit | crates/mezon-audio/src/process.rs:76-83 | The last window ends inside the input |
| Wav.WindowStartExactly | crates/mezon-audio/src/process.rs:76-83 | A window starts at the last sample not after its time |
| Wav.OutputLenExactly | crates/mezon-audio/src/process.rs:71-72 | There are as many windows as end inside the input |
| Wav.DownsampleMono | crates/mezon-audio/src/process.rs:58-89 | Errors, pass-through, and the averages of the windows, as the loop computes them |
| Wav.EncodeMonoWav | crates/mezon-audio/src/process.rs:91-116 | Header and 16-bit samples in order, or a refusal when the data length does not fit 32 bits |
| Wav.HeaderIsStandard | crates/mezon-audio/src/process.rs:97-109 | Every field of the header, read by position |
| Wav.SamplesAreWritten | crates/mezon-audio/src/process.rs:110-113 | Every 16-bit number of a written file, sign and byte order included, is the quantised sample |
| Wav.QuantizeIsNearest | crates/mezon-audio/src/process.rs:111-111 | Samples in range become the nearest step, halves away from zero; louder ones are cut |
| Wav.WavDurationLoop | crates/mezon-audio/src/decode.rs:174-201 | The chunk walk ends, in bounds, on every byte string, with the result of the recursive walk |
| Wav.DurationRoundTrip | crates/mezon-audio/src/decode.rs:174-201 | A written file is read as exactly sample count over rate |
| WavChunks.DurationOfAnyFile | crates/mezon-audio/src/decode.rs:174-201 | Whatever other chunks a file holds, of odd or even length, before and after its format: the duration is its data over its bytes per second, cut to what is there when the whole file is |
| WavChunks.NoFormatNoDuration | crates/mezon-audio/src/decode.rs:174-201 | Data ahead of any format, and a file without data, give none |
| ServerClock.ClosedForm | crates/mezon-client/src/server_clock.rs:77-85 | The day count equals a form without eras, negative years included |
| ServerClock.NextDayIsOneMore | crates/mezon-client/src/server_clock.rs:77-85 | Each valid Gregorian date counts one more than the day before, in every year |
| ServerClock.CountsDayByDay | crates/mezon-client/src/server_clock.rs:77-85 | 1970-01-01 is day 0, and n days after any date the count is n larger |
| ServerClock.OrderExactly | crates/mezon-client/src/server_clock.rs:77-85 | Day counts are ordered exactly as dates |
| ServerClock.SecondsOrderExactly | crates/mezon-client/src/server_clock.rs:72-73 | Seconds are ordered exactly as moments |
| ServerClock.FixdateRoundTrip | crates/mezon-client/src/server_clock.rs:47-74 | Every written IMF-fixdate of the years 0 to 9999 is parsed to its seconds exactly from 1970 on, and refused before |
| ServerClock.MonthFromExactly | crates/mezon-client/src/server_clock.rs:52-66 | The twelve names are months, in their order, and no other text is |
| ServerClock.StandardExample | crates/mezon-client/src/server_clock.rs:47-74 | The example date of section 7.1.1.1 of RFC 7231 is its second since the epoch |
| ServerClock.HmsSplits | crates/mezon-client/src/server_clock.rs:68-71 | A time is its first three fields between colons, whatever they hold and whatever follows |
| ServerClock.SignedParses | crates/mezon-client/src/server_clock.rs:51-71 | A plus is passed over, a minus is read only where negative numbers are allowed, and numbers out of range or without digits are refused |
| Presign.Sender.SyncWithRetry | crates/mezon-client/src/app_api.rs:2828-2881 | One to three attempts, at most one accepted patch, and failure only after three |
| Presign.Sender.UploadAndPatch | crates/mezon-client/src/app_api.rs:2694-2821 | Whatever fails, the last accepted patch lists exactly the first synced keys, each patch extends the one before, every key is reported once, true means all keys are synced, and without lost synchronisations there is one patch per four keys |
| Presign.OneOutcomeEach | crates/mezon-client/src/app_api.rs:2764-2774 | With distinct keys each has exactly one outcome, Uploaded exactly for successful uploads |
| IceQueue.Engine.DrainIce | crates/mezon-call/src/engine.rs:486-490 | The queue is handed over whole and in order and is then empty |
| IceQueue.Engine.AnswerRemoteOffer | crates/mezon-call/src/engine.rs:492-524 | Candidates are handed over exactly when the description is accepted, whether or not an answer can be made |
| IceQueue.Engine.ApplyRemoteAnswer | crates/mezon-call/src/engine.rs:526-539 | Candidates are handed over exactly when the answer is accepted |
| IceQueue.Engine.Execute | crates/mezon-call/src/engine.rs:392-423 | Handed plus pending grows by exactly the received candidate, a description comes into force exactly when it takes full effect, and the call breaks exactly when one fails with none in force |
| IceQueue.Run | crates/mezon-call/src/engine.rs:364-423 | Over any commands the call ends at the first command that ends it and only there; candidates handed and pending are those received, in order, all of them handed once a description has been accepted and none before |
| Quill.QuillDeltaToTipTap | crates/mezon-canvas/src/quill.rs:20-169 | Every character but newlines, with its styles, and every image come out once, in order; lists have items, items one non-empty paragraph, and the document is never empty |
| Quill.Converter.EndLine | crates/mezon-canvas/src/quill.rs:82-115 | Each newline kind flushes the accumulators in its own order and loses nothing |
| Quill.Converter.AddText | crates/mezon-canvas/src/quill.rs:117-158 | A text adds exactly its characters, line by line |
| Quill.Converter.AddImage | crates/mezon-canvas/src/quill.rs:60-75 | An image comes after everything open |
| Quill.SourceExactly | crates/mezon-canvas/src/quill.rs:3-12 | The first string found, plain, under src, or under url, is the source, trimmed; a blank one is none |
| Quill.LinesKeep | crates/mezon-canvas/src/quill.rs:117-119 | Splitting at newlines keeps every other character |
| Quill.HeadingOrItem | crates/mezon-canvas/src/quill.rs:83-110 | A line of one or more pieces that ends as a heading closes any list and keeps its level; one that ends as a list line joins the open list of its own kind or opens one |
| Quill.PlainLineExactly | crates/mezon-canvas/src/quill.rs:30-58 | A plain line of one or more pieces, its newline in the operation of the last piece or in one of its own, becomes a paragraph exactly when no list is open; otherwise it is that list's last item |
| Quill.EmptyLineExactly | crates/mezon-canvas/src/quill.rs:82-115 | A newline with nothing before it: a heading is none, a list newline opens its list or leaves it open, a plain one ends the list |
| Quill.LinesInOneOperation | crates/mezon-canvas/src/quill.rs:117-158 | Text of several lines is the same in one operation as line by line |
| Quill.ParagraphAfterListIsTakenIn | crates/mezon-canvas/src/quill.rs:30-58 | One bullet and one paragraph give a list of two items |
| OldDocuments.OpenOld | crates/mezon-canvas/src/editor.rs:395-408 | The lines of an opened old document show every character but newlines, and every image, once and in order, each character with the styles its marks stand for |
| OldDocuments.StylesOfAttributes | crates/mezon-canvas/src/editor.rs:3983-3992 | Of an operation's styles bold, italic, strike and link are kept, in order, and underline is not |
| OldLines.OldLinesLoad | crates/mezon-canvas/src/quill.rs:20-169 | Every line and image of an old document is loaded as one line, in order, with its text and source: headings of their level, items of their list, paragraphs, and items where a plain line follows an item |

## Left out

- Sockets, TLS, the handshake and the HTTP sniff: the model starts at the bytes handed to the read handler.
- Full protobuf schemas: decoding an envelope is a parameter that gives a request id or an error; only the field walk is modelled.
- Logging, tracing, metrics and statistics: no effect on what is modelled.
- Machine words: `usize` is taken as 64 bits, which no length in the model can exceed; values cut by the code to 16, 32 or 64 bits are cut in the model.
- Floating point: audio is exact arithmetic over reals and integers; rounding of positions and samples is not modelled.
- Rendering, layout, mouse, scrolling, clipboard and dirty flags of the editor: grapheme and word boundaries are arbitrary offsets given with the command.
- Text encoding: text is a sequence of characters, so offsets count characters, and snapping to a character boundary is clamping.
- IME marked ranges: composition edits are outside the command set.
- JSON text syntax: documents are trees; arrays, objects and numbers that are not natural numbers are one attribute value, and an absent content list is an empty one.
- Opus, Ogg pages and headers, the audio device, the audio decoders and WebRTC: foreign calls, each a free choice of success or failure.
- Playback of streams of more than two channels; the decoder thread mixes their packets to one sample per frame into a stream declared stereo, which the claim about whole frames leaves out.
- Pre-roll signalling and the byte reader of the decoder thread, mp3 and ID3 probing, sound trimming and gain, multipart ranges and file names: they would add only easy members.
- Everything in the API client that forwards to the transport, and the progress event that precedes an upload's outcome.
- Playback.Source.Next: chunks that the decoder pushes while a call runs count as pushed before or after the call; stores to the cursor may land at any moment of it.
- Playback.Play: seeks come through the shared cursor; the sink's own seek request is `Seek.TrySeekIsSound`.
- Seek.StoreAligned: finitely many interfering stores and spurious failures; with infinitely many the loop need not end.
- Presign.Sender.UploadAndPatch: a patch that the server accepts but whose reply is lost counts as not accepted.
- ServerClock.FixdateRoundTrip: the parser also takes other texts, which are not characterised; its arithmetic is unbounded here, while the code's overflows for years beyond the 64-bit range, and white space is ASCII.
- Wav.EncodeMonoWav: the size field of the outermost chunk wraps for data within 36 bytes of 4 GiB, where a checked build stops instead.
