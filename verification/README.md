# Verification of the GPUIX native companion and its measurement tools

Kybern's GPUIX app shows web pages on Linux through a companion library (`apps/gpuix/native/webview-linux.c`) and checks
its own pictures and timings with small programs (`apps/gpuix/native`, `apps/gpuix/perf`). This project models the parts of
them that loop, keep state or do arithmetic, and proves what they promise. `dafny verify dfyconfig.toml` checks all of it.

A program that changes things step by step is a class or a method with loops, and its contract equates the new state with a
specification function of the old one. The lemmas are about those functions: over every input, and over every run of a
state machine whose steps are the callbacks, commands or critical sections of the source.

- **A document's frame.** `Surface` has the values: damage rectangles, the dirty rectangle, the serial. `SurfaceRun` has
  all runs with a consumer that uploads only dirty pixels. `FrameBuffer` copies rows in an array of bytes.
- **Buffers and events of the companion.** `Presenter` (60 Hz pacing and the life of a buffer), `EventQueue` (wakes),
  `Navigation` (throttled URLs), `Focus` (focus and visibility), `Hosts` (tables of documents, frames and views), `Json`
  (what is written, and RFC 8259's reading of it), `Snapshot` (crops with straight alpha).
- **PNG** (RFC 2083). `Crc` (table, bit by bit, and division of polynomials), `PngFilter` (section 6), `PngChunks` (section
  3.2 and the decoders' walk), `PngImage` (the decoders), `PngRows` and `PngWriters` (the encoders and their round trips).
- **Measurement tools.** `LineText`, `Harness` and `ScrollHarness` (stderr handlers that must not depend on how the pipe
  cuts the text), `Matches`, `HarnessCounts` and `ScrollCounts` (what they find, said without their searches), `QueueFile`,
  `Lease`, `LeaseHolder`, `LeaseOrder`, `LeaseTurns` and `LeaseMixed` (the UI lease among any number of processes),
  `Scheduler` (jobs that are retried), `Bezier` (bisection for the easing of section 2.2 of CSS Easing Functions
  Level 1).

What the code does not do, with the exact condition under which it does:

- A buffer accepted while another waits makes that one's turn disappear: every buffer has its turn if and only if the web
  process waits for the previous one (`Presenter.EveryBufferHasItsTurn`).
- An event that does not parse ends a drain with the rest still queued, and if no wake is on its way nothing wakes the
  script again (`EventQueue.StuckForever`). Some interleaving loses the events from the n-th on for good if and only if they
  are at least one and at most 512, and the event before them does not parse (`EventQueue.LossIsExact`). So no wake is lost
  while every accepted event parses (`EventQueue.NoLostWake`), as the companion's objects of texts, whole numbers and flags
  do (`EventQueue.ObjectsNeverLoseWakes`). A number that is none would be written as `nan`, which the script refuses
  (`Json.NoNumberIsRefused`), but no event that the companion writes is known to hold one.
- A document can have the focus while it is hidden, if and only if input came while it was hidden
  (`Focus.OnlyInputFocusesHidden`).
- A frame drawn smaller before it was consumed has a dirty rectangle larger than itself
  (`SurfaceRun.DirtyStaysInside`, `SurfaceRun.DirtyCanLeaveTheFrame`); every stale pixel is dirty all the same.
- A crop of a picture stays inside it if and only if it starts there (`PngWriters.CropInside`); past the right edge it shows
  the next row.
- A snapshot's colours come back if and only if none exceeds its alpha (`Snapshot.PremultiplyIsInverse`).
- A JSON string comes back if and only if it has no NUL (`Json.StringIsWhole`).
- A scene that is listed more than once shares one count of attempts. Listed k times, it runs k times and once more for each
  of its first two failures, so three times when every run fails if and only if k is one (`Scheduler.Suite`,
  `Scheduler.Measure`).
- The older programs edit the queue without the file lock. One command at a time still holds beside them
  (`Lease.OneAtATime`), but not the order of the queue. Two queued lanes keep their order if and only if the first does
  not leave and no process writes the queue from a reading without that order (`LeaseMixed.OrderIsKeptExactly`). The
  later one then gets the lock first only if it is an older program that finds the file empty
  (`LeaseMixed.OnlyTwoWaysToOvertake`). Runs from the start show both ways (`LeaseMixed.OldProgramBreaksTheOrder`,
  `LeaseMixed.EmptyFileBreaksTheOrder`), and that the lease program's own edit under the file lock drops what an older
  program appends meanwhile (`LeaseMixed.LockedEditDropsAppend`).

## Model

| member | source | states |
|---|---|---|
| `Surface.TouchedIsCopied` | apps/gpuix/native/webview-linux.c:268-275 | Rounding the near edge down and the far edge plus one down misses no pixel of the picture that a scaled damage rectangle touches, at any scale |
| `Surface.WholeScaleAddsOne` | apps/gpuix/native/webview-linux.c:268-276 | At a whole scale exactly the damage rectangle and one more column and row are copied, cut to the picture |
| `Surface.DamageIsExact` | apps/gpuix/native/webview-linux.c:257-287 | The frame shows a new buffer exactly when every changed pixel is in a copied box, and that is so whenever every changed pixel, in the view's own pixels, shares a point with a damage rectangle |
| `Surface.RedrawsAreExact` | apps/gpuix/native/webview-linux.c:267-276 | A pixel is copied if and only if the size changed, no damage was named, or the pixel, in the view's own pixels, meets a damage rectangle, its far edge included |
| `Surface.DirtyIsLeast` | apps/gpuix/native/webview-linux.c:270-287 | The dirty rectangle after a buffer is the least around what was dirty and what was copied, and the serial moves on if and only if something was copied |
| `FrameBuffer.DocumentFrame.Render` | apps/gpuix/native/webview-linux.c:243-288 | A buffer is refused unless it holds every row it claims; else the frame's pixels, dirty rectangle and serial become those of `Surface.Rendered`, every row copy staying inside both buffers |
| `FrameBuffer.DocumentFrame.CopyBoxes` | apps/gpuix/native/webview-linux.c:271-281 | Exactly the pixels of the boxes are taken from the buffer, and the drawn area is the box around those not empty |
| `FrameBuffer.StridedIsSane` | apps/gpuix/native/webview-linux.c:250-254 | A buffer that names its stride is accepted if and only if its sides are 1 to 16384, every row it claims is in it, and no row reaches into the next |
| `FrameBuffer.PlainIsSane` | apps/gpuix/native/webview-linux.c:249-254 | One that names none is accepted if and only if its sides fit and it has four bytes for every pixel |
| `FrameBuffer.PixelOfBuffer` | apps/gpuix/native/webview-linux.c:246-250 | Pixel (x, y) of an accepted buffer is the four bytes at y strides and x pixels |
| `SurfaceRun.RenderKeepsCover` | apps/gpuix/native/webview-linux.c:257-287 | After any buffer every pixel of a texture of the frame's size is right or in the dirty rectangle |
| `SurfaceRun.ConsumeSyncs` | apps/gpuix/native/webview-linux.c:1368-1387 | Uploading only the dirty rectangle, and consuming, leaves the texture equal to the frame |
| `SurfaceRun.FrameIsLastBuffer` | apps/gpuix/native/webview-linux.c:243-288 | In every run of buffers whose damage, in the view's own pixels, names every change, resizes included, the frame is the last accepted buffer |
| `SurfaceRun.TextureIsLastBuffer` | apps/gpuix/native/webview-linux.c:1368-1387 | In every run a consuming unlock ends with the texture equal to the frame, and to the last accepted buffer when damage was truthful |
| `SurfaceRun.DrawsAreCounted` | apps/gpuix/native/webview-linux.c:282-287 | The serial counts the drawings of a run, modulo 2^64 |
| `SurfaceRun.EqualSerialsEqualPixels` | apps/gpuix/native/webview-linux.c:282-287 | Within one frame record equal serials mean equal pixels, for fewer than 2^64 events |
| `SurfaceRun.DirtyStaysInside` | apps/gpuix/native/webview-linux.c:282-286 | The dirty rectangle is inside the frame after a buffer exactly when the one before fits the new size |
| `SurfaceRun.DirtyCanLeaveTheFrame` | apps/gpuix/native/webview-linux.c:282-286 | For every larger and smaller picture, drawing one and then the other leaves the dirty rectangle of the larger |
| `Presenter.RunsArePaced` | apps/gpuix/native/webview-linux.c:301-327 | In every run a buffer waits exactly while the source is on, reports go render, release, render with at least 16666 µs between renders, and every rendered buffer but the one on screen was released once |
| `Presenter.EveryBufferHasItsTurn` | apps/gpuix/native/webview-linux.c:301-327 | Buffers without a turn are as many as came while one waited; every buffer has exactly one turn, in order, if and only if none did |
| `Presenter.FireRenders` | apps/gpuix/native/webview-linux.c:316-327 | After any run a waiting buffer can be rendered once the interval is over, and every fire renders the waiting buffer, releases the one on screen and turns the source off |
| `Presenter.LatestIsNotLost` | apps/gpuix/native/webview-linux.c:301-306 | In every run the buffers that had or wait for their turn are some of those taken, in order, and the latest is one of them |
| `EventQueue.Queue.Emit` | apps/gpuix/native/webview-linux.c:69-77 | An event of at most 65536 bytes is appended while fewer than 512 wait; a wake is asked for exactly when the queue was empty and is not any more |
| `EventQueue.Drain` | apps/gpuix/src/native/webview.ts:85-93 | A wake pops everything, or everything up to the first event that cannot be parsed, and throws exactly then |
| `EventQueue.RunKeepsOrder` | apps/gpuix/native/webview-linux.c:69-77 | In every interleaving popped events followed by queued ones are the accepted ones in order, at most 512 wait, and none is over 65536 bytes |
| `EventQueue.DrainIsARun` | apps/gpuix/src/native/webview.ts:85-93 | A delivered wake and the steps of an undisturbed drain do to the queue what `Drain` does, so the loop is one of the interleavings |
| `EventQueue.NoLostWake` | apps/gpuix/native/webview-linux.c:69-77 | In every interleaving whose accepted events all parse, waiting events have a wake owed, a wake on its way or a drain under way |
| `EventQueue.ObjectsNeverLoseWakes` | apps/gpuix/native/webview-linux.c:158-177 | So no wake is lost in a run whose events are objects of texts, whole numbers and flags as the companion writes them |
| `EventQueue.LossIsExact` | apps/gpuix/src/native/webview.ts:85-93 | For all events and every n: some interleaving that accepts these events ends stuck with those from n on, if and only if they are 1 to 512 and the event before them does not parse |
| `EventQueue.StuckByAThrow` | apps/gpuix/src/native/webview.ts:85-93 | A given run ends stuck if and only if some drain of it threw with events left, none owed a wake and no wake on its way |
| `EventQueue.StuckForever` | apps/gpuix/native/webview-linux.c:69-77 | Once events wait with nothing to wake the script, no run of any steps pops anything |
| `EventQueue.EverythingArrives` | apps/gpuix/native/webview-linux.c:1344-1351 | After any run whose accepted events parse, steps other than pushes are bounded in number, and when none is left every accepted event was popped, in order |
| `Navigation.RunsAreThrottled` | apps/gpuix/native/webview-linux.c:516-545 | In every run the URLs sent are a subsequence of those received, two are at least 100 ms apart, and the latest received is the last sent or stored with the timer on |
| `Navigation.FlushSends` | apps/gpuix/native/webview-linux.c:526-531 | In every run the timer can fire when it is due, and after each fire nothing waits: what waited is sent then, and the timer is on again if and only if something waited |
| `Navigation.ReceivedIsSentOrWaits` | apps/gpuix/native/webview-linux.c:537-545 | A URL received with the timer off goes out at once; with the timer on it waits in place of the one before |
| `Focus.RunsAreTruthful` | apps/gpuix/native/webview-linux.c:480-504 | In every run focus events strictly alternate from in, and end with where the focus is; visibility events alternate except those of a finished load; the last one is whether the document is placed |
| `Focus.ToldAtOnce` | apps/gpuix/native/webview-linux.c:1037-1038 | After a place, a hide or a finished load in any run, the last visibility told is the truth |
| `Focus.PlacedAndFocused` | apps/gpuix/native/webview-linux.c:1186-1238 | After every run the document is placed exactly when the last place or hide made it visible with an area, and has the focus exactly when some input gave it and no release, press outside, blur or update of a document not placed has come since |
| `Focus.LoadTells` | apps/gpuix/native/webview-linux.c:575-582 | After any run a finished load tells whether the document is placed, and then that it has loaded |
| `Focus.OnlyInputFocusesHidden` | apps/gpuix/native/webview-linux.c:1205-1231 | A run reaches a hidden document with the focus if and only if input that gives focus came while it was hidden |
| `Hosts.CreateIsAnswered` | apps/gpuix/native/webview-linux.c:907-908 | Every create is answered by one event: a failure exactly when the id exists, two previews are open or there is no engine |
| `Hosts.DestroyIsDone` | apps/gpuix/native/webview-linux.c:810-836 | A destroyed document is in neither table, no view carries it, one event with its generation tells so, and the others stay |
| `Hosts.RenderIsWritten` | apps/gpuix/native/webview-linux.c:257-260 | A buffer is written if and only if it is sane and its view is that of a live document, into that document's frame |
| `Hosts.RunsKeepFramesApart` | apps/gpuix/native/webview-linux.c:810-836 | In every run both tables have the same ids, at most two hosts are previews, a view carries an id exactly when it is that live host's view, no view ever wrote into a frame made with another view, and created and destroyed events alternate with the same generation |
| `Json.JsonString` | apps/gpuix/native/webview-linux.c:79-94 | The loop writes the escapes of everything before the first NUL, between quotes |
| `Json.StringRoundTrip` | apps/gpuix/native/webview-linux.c:79-94 | Reading a written string, whatever follows, gives what is before its first NUL and consumes exactly what was written |
| `Json.StringIsWhole` | apps/gpuix/native/webview-linux.c:79-94 | It gives the whole string if and only if that has no NUL |
| `Json.QuotedIsHarmless` | apps/gpuix/native/webview-linux.c:89-91 | No control character and no `<` is in a written string |
| `Json.WrittenIsClosable` | apps/gpuix/native/webview-linux.c:82-84 | Between the quotes of a written string every quote follows an odd number of backslashes, and the last backslash does not escape the closing quote |
| `Json.WholeNumberRoundTrip` | apps/gpuix/native/webview-linux.c:96-99 | Every whole number less than 10^15 from 0 is written so that it reads back, whatever ends it |
| `Json.ObjectRoundTrip` | apps/gpuix/native/webview-linux.c:158-177 | Every object of texts, whole numbers and flags reads back as its members, cut at NULs, and exactly it is consumed |
| `Json.EventWith` | apps/gpuix/native/webview-linux.c:168-177 | The text of an event with a url or a message as its last member, for any generation; with a whole one it is that of `Json.ObjectText` |
| `Json.EventIsRead` | apps/gpuix/native/webview-linux.c:158-177 | An event of NUL-free texts reads back as its fields |
| `Json.NoNumberIsRefused` | apps/gpuix/native/webview-linux.c:96-99 | An object whose second member is written as the C library writes no number is refused by a reader, whatever surrounds it |
| `Snapshot.CropAt` | apps/gpuix/native/webview-linux.c:727-732 | The crop is not empty and stays inside the frame, for every size, scale and rectangle |
| `Snapshot.CropIsAsked` | apps/gpuix/native/webview-linux.c:727-732 | At any scale the crop starts at the pixel that holds the start of the rectangle, in logical pixels, and has the nearest number of pixels there are; without a rectangle it is the whole frame |
| `Snapshot.NothingIsAsked` | apps/gpuix/native/webview-linux.c:729-733 | A rectangle leaves nothing if and only if it starts past the frame or is shorter than half a device pixel |
| `Snapshot.WholeRectIsExact` | apps/gpuix/native/webview-linux.c:729-733 | A whole rectangle of device pixels inside the frame is exactly what is written |
| `Snapshot.StraightIsNear` | apps/gpuix/native/webview-linux.c:698-701 | For colour at most alpha, the straight colour times the alpha is within 127 of 255 times the colour |
| `Snapshot.PremultiplyIsInverse` | apps/gpuix/native/webview-linux.c:697-701 | Premultiplying with rounding gives back the colour if and only if it is at most the alpha |
| `Snapshot.WriteSnapshot` | apps/gpuix/native/webview-linux.c:689-720 | The file is that of the crop's pixels with straight alpha |
| `Snapshot.SnapshotTo` | apps/gpuix/native/webview-linux.c:722-747 | A file is written exactly when there is a frame and something of the rectangle is left |
| `Snapshot.SnapshotRoundTrip` | apps/gpuix/native/webview-linux.c:689-747 | A snapshot is written if and only if something of a frame is asked for and its numbers fit; decoding it and premultiplying gives the requested pixels, each exactly when no colour exceeds its alpha |
| `Crc.DivisorIsConstant` | apps/gpuix/native/check-harness.ts:245 | 0xedb88320 has the terms of the divisor of section 3.4 of RFC 2083, lowest bit first |
| `Crc.TableStepIsBitStep` | apps/gpuix/native/check-harness.ts:246 | A step through the table is eight steps bit by bit, from any register |
| `Crc.TableCrc` | apps/gpuix/native/win-input.ts:223-224 | The table-driven loop computes the CRC of every byte sequence |
| `Crc.BitCrc` | apps/gpuix/native/paint-region-check.ts:14 | So does the loop bit by bit |
| `Crc.DivisionIsExact` | apps/gpuix/native/check-harness.ts:246 | Long division of the message by the divisor has the stated quotient and remainder |
| `Crc.CrcIsRemainder` | apps/gpuix/native/check-harness.ts:246 | The CRC is the complement of one remainder: that of the message times x^32 with ones added to its 32 highest coefficients, as section 3.4 defines it |
| `Crc.ChangedByteChangesCrc` | apps/gpuix/native/check-harness.ts:246 | Changing one byte anywhere changes the CRC |
| `PngFilter.UnfilterUndoesFilters` | apps/gpuix/native/png.ts:9 | For every image, whichever filter of section 6 of RFC 2083 each row uses, decoding the filtered rows gives back the bytes |
| `PngFilter.PaethIsNearest` | apps/gpuix/native/png.ts:9 | The predictor of section 6.6 is the neighbour nearest to left + above - above-left, ties going to left, then above |
| `PngFilter.UnfilteredIsDecoded` | apps/gpuix/native/png.ts:9 | For any data, short data and unknown types included, each decoded byte is its data plus what its row's type predicts from the bytes decoded a pixel to the left, a row above, and both |
| `PngFilter.Unfilter` | apps/gpuix/native/png.ts:8-9 | The loops over rows and bytes, in place in one array, compute the decoded bytes of any data, short data included |
| `PngChunks.WalkOfMore` | apps/gpuix/native/png.ts:7 | The walk over a file finds exactly the chunks that were stored, and then goes on with whatever follows them |
| `PngChunks.CutDataIsTaken` | apps/gpuix/native/png.ts:7 | A file that ends inside the data of a chunk is read with the data there is |
| `PngChunks.HeaderIsAccepted` | apps/gpuix/native/png.ts:7 | A header is accepted if and only if it has 8 bits a sample, no interlacing and colour type 2 or 6, and its sizes are its first two numbers |
| `PngChunks.StoredIsChunk` | apps/gpuix/native/check-harness.ts:247-252 | A stored chunk is the length of the data, highest byte first, the type, the data, and the CRC of type and data |
| `PngChunks.OnlyDataMatters` | apps/gpuix/native/png.ts:7 | Of the chunks only the headers and the joined image data matter |
| `PngChunks.SplitDoesNotMatter` | apps/gpuix/native/png.ts:6-8 | Cutting the image data into other chunks, or adding other chunks, changes nothing |
| `PngImage.ReadChunks` | apps/gpuix/native/clip-pixels.ts:8 | The decoders' loop over a file, with its failures, is the walk |
| `PngImage.Pixels` | apps/gpuix/native/png.ts:4-11 | The decoder computes the image of any file, or fails where the walk or inflating does |
| `PngImage.BytesAreDecoded` | apps/gpuix/native/png.ts:4-11 | Whatever file is decoded, its image has the last header's size and every byte is made from the inflated data as `PngFilter.IsDecoded` says |
| `PngImage.CutFileIsRefused` | apps/gpuix/native/png.ts:7 | A file whose last length is cut short is not decoded |
| `PngImage.DecodeOfChunks` | apps/gpuix/native/png.ts:6-9 | Any file with one header and inflatable image data, however cut, decodes to its unfiltered rows |
| `PngImage.FileRoundTrip` | apps/gpuix/native/png.ts:4-11 | Any image at least one pixel wide, with any filter in each row and its data cut into any chunks among any others, decodes to itself |
| `PngRows.StoreRows` | apps/gpuix/native/check-harness.ts:257-258 | The loops over rows and pixels fill the buffer with the type byte 0 and every pixel, row by row |
| `PngRows.PixelIsDecoded` | apps/gpuix/native/png.ts:8-10 | Every stored pixel is where the decoder reads it, for any width, height and bytes a pixel |
| `PngWriters.RowsAreDecoded` | apps/gpuix/native/check-harness.ts:254-264 | An encoder's file exists if and only if its numbers fit, and decoding it gives the width, the height and every pixel stored |
| `PngWriters.EncodedIsPng` | apps/gpuix/native/check-harness.ts:254-264 | A file is written if and only if its numbers fit in 32 bits; it is the signature and the chunks of a header with these sizes, of the image data and of the end, each with its length and CRC, and nothing else |
| `PngWriters.TableChunk` | apps/gpuix/native/check-harness.ts:247-252 | Writing into one buffer gives length, type, data and CRC; data of 2^32 bytes or more is refused |
| `PngWriters.BitChunk` | apps/gpuix/native/paint-region-check.ts:15 | Joining head, data and tail gives the same chunk |
| `PngWriters.WriteCrop` | apps/gpuix/native/check-harness.ts:254-264 | The file is that of the crop's pixels |
| `PngWriters.CropInside` | apps/gpuix/native/check-harness.ts:255-256 | A crop stays inside the image if and only if it starts inside |
| `PngWriters.CropIsNear` | apps/gpuix/native/check-harness.ts:255-256 | At any scale a crop starts at the pixel that holds the start of the rectangle, in logical pixels, and has the nearest number of pixels there are, one at least |
| `PngWriters.WholeCropIsExact` | apps/gpuix/native/check-harness.ts:255-256 | At a whole scale a whole rectangle inside the image is cropped to exactly its pixels |
| `PngWriters.CropRoundTrip` | apps/gpuix/native/check-harness.ts:254-264 | For every crop that starts inside, the decoded pixel (x, y) is the image's pixel (x0 + x, y0 + y) |
| `PngWriters.WritePng` | apps/gpuix/native/win-input.ts:232-241 | The file is that of the window's pixels |
| `PngWriters.CaptureRoundTrip` | apps/gpuix/native/win-input.ts:232-241 | Decoding a window's picture gives its pixels with blue and red swapped |
| `PngWriters.WriteDiff` | apps/gpuix/native/paint-region-check.ts:64-76 | The file is that of the amplified differences |
| `PngWriters.DiffShowsDifferences` | apps/gpuix/native/paint-region-check.ts:64-76 | Below the top the decoded difference is 16 times that of the captures, 255 at most, and it is black exactly where they agree or above the content |
| `LineText.CompleteOfMore` | apps/gpuix/native/frame-harness.ts:13-18 | More text only adds complete lines, made of the kept rest and the new text |
| `LineText.MatchIsLongest` | apps/gpuix/perf/pacing-scroll.ts:24-29 | For expressions whose runs end before the next literal the matcher finds a match, captures included, if and only if it is the longest that the expression denotes |
| `LineText.ScanOfMore` | apps/gpuix/native/frame-harness.ts:19-22 | Matches in complete lines and in what follows are found independently |
| `Matches.ScanFindsAll` | apps/gpuix/native/frame-harness.ts:19-22 | `matchAll` finds the longest match of the first alternative at each of its places, from left to right, none overlapping, and at no place outside them does any alternative match |
| `Matches.ScanCounts` | apps/gpuix/native/frame-harness.ts:19-22 | When a character begins every alternative and is nowhere else in a match, one match is found for every place at which an alternative matches |
| `Matches.IncludesIsStanding` | apps/gpuix/perf/loops8-harness.ts:20 | `includes` holds if and only if the word stands somewhere in the line |
| `Matches.FirstMatchIsFirst` | apps/gpuix/perf/pacing-scroll.ts:24-29 | `match` finds the longest match at the first place that has one, or none where no place has |
| `Harness.ChunksDoNotMatter` | apps/gpuix/native/frame-harness.ts:10-23 | For every way of cutting a text the handler ends with the report of one pass: counters, last 2048 frame times, region lines, the rest of the text, the last characters |
| `Harness.Feed` | apps/gpuix/native/frame-harness.ts:10-23 | The class fed the pieces ends with that report |
| `HarnessCounts.CountersAreCounts` | apps/gpuix/native/frame-harness.ts:19-22 | The counters are the numbers of places where the tags of renders, wakes, commits and frames stand; the frame times are the last 2048 of the numbers behind the frames' tags, in order |
| `HarnessCounts.RecordsAreOfLines` | apps/gpuix/perf/loops8-harness.ts:20 | The records are exactly the lines that hold the tags, in their order, and of visibility lines the part from the tag on and whether they say 1 |
| `HarnessCounts.FromIsFirst` | apps/gpuix/perf/loops8-harness.ts:20 | The part of a visibility line that is kept starts at the first place where the tag stands |
| `HarnessCounts.HandlerCounts` | apps/gpuix/native/frame-harness.ts:10-23 | However a text of whole lines and an unfinished one is cut, the handler ends with these counts and records of the whole lines, keeps the unfinished one, and the last characters of all |
| `ScrollHarness.ChunksDoNotMatter` | apps/gpuix/perf/pacing-scroll.ts:20-32 | Its submit times, costs, commits and renders do not depend on how the text is cut either |
| `ScrollHarness.Feed` | apps/gpuix/perf/pacing-scroll.ts:20-32 | The class fed the pieces ends with the report of one pass |
| `ScrollCounts.SubmitIsFirst` | apps/gpuix/perf/pacing-scroll.ts:24-25 | A line's submit time is what the first match of its expression captures, and there is none exactly when no place matches |
| `ScrollCounts.CostIsFirst` | apps/gpuix/perf/pacing-scroll.ts:28-29 | Its costs are what the first match of their expression captures, and there are none exactly when no place matches |
| `ScrollCounts.RecordsAreOfLines` | apps/gpuix/perf/pacing-scroll.ts:23-30 | One time for every line with a submit and three costs for every line with costs, in order, and the numbers of lines that hold the tags of commits and renders |
| `ScrollCounts.HandlerReads` | apps/gpuix/perf/pacing-scroll.ts:20-32 | However a text of whole lines and an unfinished one is cut, the report is that of the whole lines |
| `QueueFile.PrintedIsRead` | apps/gpuix/native/ui-lease.ts:57-67 | Reading a written queue gives its lanes |
| `QueueFile.EditorAgrees` | apps/gpuix/native/ui-lease.ts:57-67 | The editor's line breaks, which are more than the readers', make no difference in a written queue |
| `QueueFile.TornShowsNewFirst` | apps/gpuix/native/ui-lease.ts:57-67 | A reader between the rewrite and the cut sees the new queue first, and the old one while the new is empty |
| `QueueFile.File.Edit` | apps/gpuix/native/ui-lease.ts:59-67 | The file's lanes after a join or a leave, whatever line breaks the editor found in it; afterwards its editor and its readers find the same lanes |
| `Lease.OneAtATime` | apps/gpuix/perf/pacing-lock.ts:7-32 | In every run of old and new programs, whatever readers see of the queue, at most one process holds the lock, through the hand-off too |
| `LeaseHolder.HolderIsFirst` | apps/gpuix/native/ui-lease.ts:94-113 | In every run of the lease program from a fair state nobody is queued twice, its holder is first in the queue from seeing itself first until its own leave, and whoever has ended, or is past its leave, is not in the queue |
| `LeaseHolder.HolderIsFirstFromStart` | apps/gpuix/native/ui-lease.ts:94-113 | So it is in every run from the start, with any number of lanes |
| `LeaseOrder.NoOvertaking` | apps/gpuix/native/ui-lease.ts:92-115 | While a lane stays queued, no lane behind it and none that joins later gets the lock |
| `LeaseOrder.NoOvertakingFromStart` | apps/gpuix/native/ui-lease.ts:92-115 | The same after every run from the start, for any number of lanes |
| `LeaseOrder.FirstCanAcquire` | apps/gpuix/native/ui-lease.ts:94-104 | The first lane takes a free lock by five steps of its own |
| `LeaseTurns.JoinDoes` | apps/gpuix/native/ui-lease.ts:59-92 | Four steps of its own put a process that starts at the end of the queue |
| `LeaseTurns.RejoinDoes` | apps/gpuix/native/ui-lease.ts:96-97 | A waiting process that is no longer queued joins again before it asks who is first |
| `LeaseTurns.LeaveDoes` | apps/gpuix/native/ui-lease.ts:94-96 | A process that times out, or gives way to a measurement, takes itself out of the queue and leaves the lock as it is |
| `LeaseTurns.FailDoes` | apps/gpuix/native/ui-lease.ts:99-103 | So does one that cannot make the lock |
| `LeaseTurns.HandOnDoes` | apps/gpuix/native/ui-lease.ts:110-115 | Four steps of its own take the holder out of the queue, and then free the lock |
| `LeaseTurns.NextGetsTheLock` | apps/gpuix/native/ui-lease.ts:94-115 | Then five steps of the lane behind it take the lock |
| `LeaseTurns.NextIsBehindHolder` | apps/gpuix/native/ui-lease.ts:110-115 | After any run from the start the holder is first, and handing on leaves the rest of the queue in its order |
| `LeaseMixed.OrderIsKept` | apps/gpuix/perf/pacing-lock.ts:22-26 | A step of old or new programs leaves one queued lane before another if and only if it is neither the first one's leave nor a write of the queue from a reading without that order |
| `LeaseMixed.OrderIsKeptExactly` | apps/gpuix/perf/pacing-lock.ts:13-26 | Over every run of old and new programs, whatever readers see: the order is kept in every state if and only if no step is such a leave or write |
| `LeaseMixed.OnlyTwoWaysToOvertake` | apps/gpuix/perf/pacing-lock.ts:17-21 | In every mixed run a lane, old or new, that has not seen itself first gets the lock before one queued before it only after such a leave or write, or because it is old and found the file empty |
| `LeaseMixed.OldProgramBreaksTheOrder` | apps/gpuix/perf/loops8-lock.ts:22-26 | A run from the start in which a queued lane that never leaves loses its entry and is overtaken, though every reader sees the queue as it is |
| `LeaseMixed.EmptyFileBreaksTheOrder` | apps/gpuix/perf/pacing-lock.ts:18-24 | A run from the start in which the order stands in every state, the first of two lanes never leaves, and the second, an older program that reads while another rewrites the file, gets the lock |
| `LeaseMixed.LockedEditDropsAppend` | apps/gpuix/native/ui-lease.ts:59-67 | A run from the start in which the edit under the file lock drops an entry that an older program appended meanwhile |
| `Scheduler.KeyIsInjective` | apps/gpuix/perf/loops8-suite.ts:20 | Different jobs count their attempts apart |
| `Scheduler.RunKeepsProgress` | apps/gpuix/perf/loops8-suite.ts:15-24 | One run keeps the attempts table right, shrinks the runs still possible, keeps a job wanted once queued once or settled, and requeues any job once for each of its first two failures |
| `Scheduler.RunLease` | apps/gpuix/perf/loops8-suite.ts:13-26 | A lease covers one to four runs, and fewer than four only when no job is left or time is up |
| `Scheduler.Suite` | apps/gpuix/perf/loops8-suite.ts:11-27 | The loop over the growing list ends with at most three runs per wanted job, the wanted ones first; whatever the outcomes, a job wanted once ends with a usable run or exactly three failed ones, and one wanted k times runs k times and once more for each of its first two failures |
| `Scheduler.CopiesOfInitial` | apps/gpuix/perf/loops8-suite.ts:10 | A job is wanted as often as its scene is listed, unless it has a usable row |
| `Scheduler.InitialIsInOrder` | apps/gpuix/perf/loops8-suite.ts:10 | The wanted jobs are the first runs of the scenes in their order, and then the second ones |
| `Scheduler.Measure` | apps/gpuix/perf/loops8-suite.ts:8-27 | The same for a list of scenes, by how often each is listed |
| `Bezier.CubicIsTheBezierCurve` | apps/gpuix/perf/motion-check.ts:26 | The expanded cubic is the coordinate of the Bézier curve by de Casteljau's interpolation |
| `Bezier.CoordinateIncreases` | apps/gpuix/perf/motion-check.ts:26 | For every control values in the unit square a coordinate strictly increases, at most three times as fast as its parameter |
| `Bezier.Solve` | apps/gpuix/perf/motion-check.ts:26 | Thirty rounds of bisection end within 3·2^-31 of the true value, which is that of a parameter whose horizontal coordinate is within 3·2^-31 of x, for any control values in the unit square |
| `Bezier.MotionProgress` | apps/gpuix/perf/motion-check.ts:26 | The bound for cubic-bezier(.32, .72, 0, 1) |
| `Bezier.DragProgress` | apps/gpuix/perf/drag-check.ts:30 | The bound for cubic-bezier(.25, .1, .25, 1) |

Handlers of one callback (the methods of `Presenter.View`, `Navigation.Host`, `Focus.Host`, `Hosts.Companion`,
`EventQueue.Queue` and the two `Fixture`s) are proved against the step functions that these runs are made of, and have no
rows of their own.

## Left out

- WebKit, WPE, GLib, zlib, user32 and Node are not modelled: inflating undoes deflating, timers never fire early and the clock
  never goes back; that a page's CRC in the companion comes from zlib is taken as the same CRC.
- A view's height is a natural number; the library never gives a negative one.
- Rounding of `double`: scales, damage edges, crops and the bisection are over the reals. Casts of numbers outside `int`
  (a request with a huge `x`) are not modelled.
- That a curve has a point over every x: the bounds are for every such point, and beside them the result is shown to be the
  curve's point at a horizontal coordinate as near to x.
- The consumer of frames (`websurface`, in another repository) is taken to upload the dirty rectangle, or everything when
  its texture has another size, as `WEBVIEW-PLATFORMS.md` says.
- The source's objects that point at each other (hosts, views and frames in hash tables) are maps from numbers and ids in one
  class; one companion's step is one callback or command, as its thread runs them.
- Hosts.Companion.RenderBuffer: does not carry the pixels, which `FrameBuffer` has; the two are joined by the frame the buffer goes to.
- Focus.Host.UpdateVisibility: does not model mapping and muting the view or the frame's `visible` flag, which follow it.
- Focus.Host.PlaceHost: does not model sizes, scale, slot and layout script; only whether the document is placed.
- Focus.Host.RunInput: does not model buttons, positions, scale or the `outsidePress` event.
- Hosts.Companion.CreateHost: every new view is taken to be one of the companion's own class.
- Presenter.View.RenderBuffer: does not model disposal of a view, which drops both buffers without a report.
- Snapshot.WriteSnapshot: does not model a compressed size over 32 bits, which the size of a frame rules out, nor a failing write.
- Json.EventWith: a generation that is not whole, or is 10^15 or more, is whatever text the C library gives, a parameter; such
  an event is not among those read back.
- Events whose last member is JSON of the page, and `visibility` events, are not among the objects read back.
- Harness.Fixture.Data: does not model `received` stamps of the clock, `frontAt`, or a UTF-8 character cut between two pieces,
  which `String(chunk)` decodes apart.
- ScrollHarness.Fixture.Data: does not model `received` stamps; captured numbers stay text.
- LeaseMixed.OldProgramBreaksTheOrder: each read, append and rewrite of the queue file is one step, but that a reader can find
  the file empty or with leftovers; bytes that an append and a rewrite at the same instant leave mixed are not modelled.
- Lease.OneAtATime: does not model a process that dies without running its cleanup, a lease inside a lease, or the removal
  of the owner file apart from that of its directory.
- Lane names are numbers in `Lease`; `QueueFile` has the text, for names without any of the line breaks
  of Python's `splitlines`.
- `acquirePreviewUiLock` is an atomic make that fails when the lock is there; process groups, signals and `ps` are left out.
- Scheduler.Suite: does not model a launch that throws, which ends the suite.
- Limits of memory are left out, so a picture that is too large for a buffer is only refused by the 32-bit fields.
- Sandbox probes, script injection, origin and path policy, certificates, labs, screenshots, daemon and SQLite fixtures,
  resource sampling and packaging: policy and plumbing around foreign programs.
- Quantiles, tolerances of colours and lookup tables: easy members.
