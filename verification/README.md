# Verified models of the noVNC client engine and the GOAR and vibe control planes

A Dafny 4.11 project that models the stateful code of this repository that has something to
prove, and proves it. `dafny verify dfyconfig.toml` checks all of it.

## What is modelled

**The noVNC client engine.**

- `Websock.dfy`: the receive queue in one growing array that is compacted in place and can be
  rewound, and the bounded send queue, as a class over arrays. Ghost fields hold the stream
  received and the bytes pushed; the class invariant ties the arrays to them.
- `RfbStream.dfy`: the connected phase of RFB as functions of the byte stream, with the saved
  sub-states of a message read in part. `RfbClient.dfy`: the message handlers as the program
  writes them, with early returns, gobacks and loops over a `Websock`, proved to compute those
  functions. `RfbChunking.dfy`: how the network splits the bytes, and when the display lets a
  paused parser go on, does not matter.
  `RfbWire.dfy`: the layouts of sections 7.6 and 7.7 of RFC 6143 and of the extensions, written
  down independently of the parser together with what each message means, and the proof that the
  parser reads any sequence of them back.
- `Canvas.dfy`, `Display.dfy`: canvases with the browser's drawing rules; the damage rectangle,
  the viewport, and the render queue with load events and flush promises.
- `HandshakeStream.dfy`: the handshake of sections 7.1 to 7.3 of RFC 6143 with VeNCrypt as functions
  of the byte stream. `Handshake.dfy`: connection states, disconnect timer and the negotiation as
  the program writes it. `HandshakeWire.dfy`: what servers say, laid out independently, and what
  comes of it.
- `Base64.dfy`, `RA2.dfy`, `WakeLock.dfy`, `KeyInput.dfy`: the codec, the nonce counter, the
  wake lock protocol, and the mobile keyboard diff.

**GOAR's control plane.** `Checkpoint.dfy`: per-turn file checkpoints and their revert.
`Lease.dfy`: the session lease store.

**Kernels of the vibe app server.** `JsonPatch.dfy`: rewriting replace into append.
`Pagination.dfy`: cursor paging of turns and sessions. `SessionRoots.dfy`: roots over a parent
map that may have cycles.

Code that changes state is a class or a method with loops; each method is proved against a
function of its inputs or old state, and the claims are lemmas about those functions or
invariants (`Valid()`) that every method keeps, so that they hold after any sequence of calls.

## What the proofs turned up

- Drawing one canvas on another leaves the target alone where the source was never drawn. So the
  visible canvas equals the viewport window after a flip exactly under the condition of
  `FlipShowsWindow`; where pixels have been drawn the two always agree.
- `viewportChangePos` guards its left edge only for moves to the left. On a display whose canvas
  was given a size before the first `resize`, a move takes the viewport left of the empty
  framebuffer (`LeftOfFramebuffer`); clipping and resizing leave it there, exactly under the
  condition of `RefittedFits`, until a move to the left brings it back (`MoveFits`,
  `LeftMoveReturns`). Starting from an empty canvas, as `rfb.js` does, it cannot happen.
- The queued form of a blit takes its pixels from the front of the underlying buffer, ignoring
  `byteOffset` as well as `offset`. The raw and Hextile decoders pass views into the receive buffer,
  so behind an image that is still loading they draw the wrong pixels (`QueuedBlitReadsFront`); the
  forms agree exactly under the condition of `BlitFormsAgree`.
- An update without rectangles that arrives while drawing is queued is dropped: the pause comes
  before its flip and the next update request, and resuming does not make up for them
  (`EmptyUpdateStalls`). Apart from that pauses change nothing (`PausesCost`).
- The keyboard diff works on UTF-16 code units: an emoji is sent as two codes that are no characters,
  a change to a similar one as half of it, and its deletion takes two backspaces (`EmojiRun`,
  `TypedCharacters`, `BackspacesForCharacters`).
- The base64 decoder looks at seven bits of a code unit only, so text outside the alphabet can pass
  (`StrayHalfPasses`, `LegalByLowBits`).
- Rewriting a replace into an append is wrong when an earlier operation of the same patch changed
  the string or moved an array element on the way to it (`TouchedPathDiffers`,
  `ShiftedElementDiffers`); `RewriteIsExact` says exactly when it is right.
- After `_fail` on an unknown message type the loop goes on, so what follows in the same chunk is
  still acted on (`AfterFailureChunksMatter`).
- A fence with more than 64 bytes is cut for the answer, but the rest of it stays in the queue and
  is read as messages (`LongFenceIsCut`).
- `_negotiateSecurity` may run on an empty queue (credentials sent early). It then reads a stale
  byte and goes back over it, which is the same as waiting.
- The docstring of `review` says the ledger stays truthful when a large file cannot be restored;
  the files restored before the exception stay restored (`Review`).
- A captured state that is not UTF-8 is restored as what decoding with replacement makes of it,
  without an error: hence `Recoverable`.
- The wake lock's header says the latest call dictates the end state; a rejection, or a lock lost
  while the document is visible, ends released although the latest call was acquire.
- A lease taken under the empty owner name excludes nobody.

## Model

| member | source | states |
|---|---|---|
| `WebsockModel.PushShiftRoundTrip32` | goar-production/static/novnc/core/websock.js:119-125 | For every integer pushed, rQshift32 on the bytes sQpush32 wrote reads the number modulo 2^32, wherever they lie in the stream |
| `WebsockModel.PushShiftRoundTrip16` | goar-production/static/novnc/core/websock.js:187-191 | The same for 16 bits |
| `WebsockModel.FirstIsMostSignificant` | goar-production/static/novnc/core/websock.js:115-125 | Network order: the first byte read is the most significant |
| `WebsockModel.WireIsNetworkOrder` | goar-production/static/novnc/core/websock.js:187-199 | What is pushed is the number modulo 2^16 or 2^32 in that order |
| `WebsockModel.Websock.RQshift` | goar-production/static/novnc/core/websock.js:119-125 | The shifting loop with its 32-bit overflow computes the big-endian value of the bytes consumed |
| `WebsockModel.Websock.RQshiftStr` | goar-production/static/novnc/core/websock.js:131-139 | Reading in steps of 4096 gives exactly the next len bytes of the stream |
| `WebsockModel.Websock.RQwait` | goar-production/static/novnc/core/websock.js:167-178 | Waits iff fewer than num bytes are unread; a goback puts back exactly the last goback bytes consumed, or throws (iff the buffer does not reach back that far) and changes nothing |
| `WebsockModel.Websock.ExpandCompactRQ` | goar-production/static/novnc/core/websock.js:316-346 | Fails iff unread plus new bytes exceed 40 MiB; otherwise nothing unread is lost, the new bytes fit, and the buffer is still a slice of the stream ending at its last byte |
| `WebsockModel.Websock.RecvMessage` | goar-production/static/novnc/core/websock.js:349-368 | The received bytes join the stream and the read position does not move, or they do not fit (exact condition) and nothing joins |
| `WebsockModel.Websock.Flush` | goar-production/static/novnc/core/websock.js:221-226 | On an open socket the pending bytes become one payload; sent payloads followed by pending bytes stay all bytes pushed |
| `WebsockModel.Websock.SQpush32` | goar-production/static/novnc/core/websock.js:193-199 | Appends the four bytes in network order; conservation and the 10 KiB bound are kept |
| `WebsockModel.Websock.SQpushBytes` | goar-production/static/novnc/core/websock.js:206-219 | Terminates for any length and appends all bytes in order, over as many flushes as it takes |
| `RfbStream.Message` | goar-production/static/novnc/core/rfb.js:2574-2630 | What one message at the head of the stream does: consumes at most what has arrived, reports at most one failure and last, keeps the parser state well formed |
| `RfbStream.RectBody` | goar-production/static/novnc/core/rfb.js:2681-2717 | The same for the body of one rectangle, by encoding |
| `RfbStream.RawRect` | goar-production/static/novnc/core/decoders/raw.js:15-58 | Raw lines one by one, with the number of lines to go as resumable state |
| `RfbStream.RreRect` | goar-production/static/novnc/core/decoders/rre.js:15-44 | RRE background and subrectangles, resumable between them |
| `RfbStream.ExtendedSizeRect` | goar-production/static/novnc/core/rfb.js:2906-2989 | ExtendedDesktopSize waits for all screens, then changes size, screen and pending request |
| `RfbStream.Step` | goar-production/static/novnc/core/rfb.js:2574-2679 | Every step makes progress in bytes or in rank, and fails only with a final report |
| `RfbStream.Handle` | goar-production/static/novnc/core/rfb.js:1002-1014 | The message loop ends, never passes the received bytes, leaves a well-formed state, and stops for the display where the source does |
| `RfbChunking.StepIgnoresTail` | goar-production/static/novnc/core/rfb.js:2574-2717 | A step that has its bytes is the same whatever follows them |
| `RfbChunking.LiveResumes` | goar-production/static/novnc/core/rfb.js:992-1014 | Running on more bytes is running on fewer, waiting, and going on: each early return rewinds to a state from which nothing is lost |
| `RfbChunking.HandleIsLive` | goar-production/static/novnc/core/rfb.js:1002-1014 | The real loop begins what the loop does that knows no pauses and stops at the first failure: it comes to a state from which that one goes on, whatever bytes follow |
| `RfbChunking.DeliverIsLive` | goar-production/static/novnc/core/rfb.js:992-1014 | Any course of chunks and ends of pauses gives the outputs of the whole stream up to the first failure, and without one the same state, as far as the last pause allows |
| `RfbChunking.ChunkingIndependence` | goar-production/static/novnc/core/rfb.js:992-1014 | Two courses of chunks and ends of pauses that bring the same bytes agree on all outputs up to the first failure and, without failure, on everything |
| `RfbChunking.PausesCost` | goar-production/static/novnc/core/rfb.js:2638-2652 | When the display makes the parser pause changes nothing iff no pause meets an update without rectangles; otherwise outputs are lost |
| `RfbChunking.EmptyUpdateStalls` | goar-production/static/novnc/core/rfb.js:2638-2652 | The witness: an update without rectangles, announced while drawing is queued, is never answered |
| `RfbChunking.AfterFailureChunksMatter` | goar-production/static/novnc/core/rfb.js:2625-2628 | Beyond a failure the split does matter: an unknown type followed by a bell in one chunk still rings |
| `RfbWire.MessagesAreUnderstood` | goar-production/static/novnc/core/rfb.js:2574-2679 | Any list of Bell, ServerCutText, Fence, XVP, EndOfContinuousUpdates and FramebufferUpdate messages, laid out on the wire and cut into chunks in any way, with any pauses for the display, produces exactly what the messages mean, in order, with nothing left over; an update may end early with a LastRect |
| `RfbWire.RectParses` | goar-production/static/novnc/core/rfb.js:2654-2717 | The layout of a rectangle of any modelled kind is read back as that rectangle and does what it means; a LastRect ends the update whatever count was announced |
| `RfbWire.ExtendedSizeParses` | goar-production/static/novnc/core/rfb.js:2906-2989 | The layout of an ExtendedDesktopSize is read back: the first screen is kept, and who asked and with what success decides on resizing, answering and asking again |
| `RfbWire.RreParses` | goar-production/static/novnc/core/decoders/rre.js:27-40 | RRE subrectangles are filled relative to their rectangle, in order, each once |
| `RfbWire.LineIsShown` | goar-production/static/novnc/core/decoders/raw.js:34-53 | Pixels laid out in the format asked for come out as themselves: at depth 24 red, green, blue as received and opaque, at depth 8 two bits each times 85, red lowest |
| `RfbWire.RawParses` | goar-production/static/novnc/core/decoders/raw.js:27-57 | A raw rectangle's lines are blitted top to bottom, each once |
| `RfbWire.OffencesFail` | goar-production/static/novnc/core/rfb.js:2509-2630 | A colour map, an unknown type, the answer to a fence never sent, an unknown XVP message or encoding is reported as a failure in its turn, however the bytes are cut and whatever follows |
| `RfbWire.LongFenceIsCut` | goar-production/static/novnc/core/rfb.js:2509-2549 | A fence of more than 64 bytes is answered with the first 64; the others are read as messages |
| `RfbWire.MsgParses` | goar-production/static/novnc/core/rfb.js:2574-2630 | The same for one message |
| `RfbClientModel.RfbClient.HandleServerCutText` | goar-production/static/novnc/core/rfb.js:2345-2365 | The handler, rewinding to the type byte when it must wait, does what the stream function says |
| `RfbClientModel.RfbClient.HandleServerFenceMsg` | goar-production/static/novnc/core/rfb.js:2509-2549 | The same; oversized payloads are cut to 64 bytes and only requests are answered |
| `RfbClientModel.RfbClient.HandleXvpMsg` | goar-production/static/novnc/core/rfb.js:2551-2572 | The same for XVP |
| `RfbClientModel.RfbClient.HandleEndOfContinuousUpdates` | goar-production/static/novnc/core/rfb.js:2605-2617 | Only the first one enables continuous updates |
| `RfbClientModel.RfbClient.HandleDesktopName` | goar-production/static/novnc/core/rfb.js:2872-2889 | The same for DesktopName, going back 4 bytes |
| `RfbClientModel.RfbClient.HandleLedEvent` | goar-production/static/novnc/core/rfb.js:2891-2904 | The same for the LED state |
| `RfbClientModel.RfbClient.HandleCursor` | goar-production/static/novnc/core/rfb.js:2835-2851 | Waits for pixels and mask together |
| `RfbClientModel.RfbClient.HandleExtendedDesktopSize` | goar-production/static/novnc/core/rfb.js:2906-2989 | The same for ExtendedDesktopSize, peeking before it waits |
| `RfbClientModel.RfbClient.ReadScreens` | goar-production/static/novnc/core/rfb.js:2918-2936 | All screens are skipped, the first one's id and flags kept |
| `RfbClientModel.RfbClient.DecodeCopyRect` | goar-production/static/novnc/core/decoders/copyrect.js:11-27 | Waits for the source position; draws nothing for an empty rectangle |
| `RfbClientModel.RfbClient.DecodeRaw` | goar-production/static/novnc/core/decoders/raw.js:15-58 | Whatever it returns, the rest of the run is unchanged: the line counter is a sufficient saved state |
| `RfbClientModel.ImageLine` | goar-production/static/novnc/core/decoders/raw.js:36-51 | The conversion loops: what they make of a line at either depth |
| `RfbClientModel.RfbClient.DecodeRre` | goar-production/static/novnc/core/decoders/rre.js:15-44 | The same for RRE |
| `RfbClientModel.RfbClient.HandleRect` | goar-production/static/novnc/core/rfb.js:2681-2717 | Dispatch on the encoding keeps the run on course or stops it exactly where the stream function does |
| `RfbClientModel.RfbClient.FramebufferUpdate` | goar-production/static/novnc/core/rfb.js:2632-2679 | Header, pause for the display, rectangles and flip, resumable after any of them |
| `RfbClientModel.RfbClient.NormalMsg` | goar-production/static/novnc/core/rfb.js:2574-2630 | One message or the rest of an update; no rQwait in it can throw |
| `RfbClientModel.RfbClient.HandleMessage` | goar-production/static/novnc/core/rfb.js:992-1014 | The loop with its sockets, gobacks, flushing flag and saved state computes Handle |
| `RfbClientModel.RfbClient.OnMessage` | goar-production/static/novnc/core/websock.js:349-368 | A network message, with compaction or growth of the buffer, is handled as one chunk |
| `RfbClientModel.RfbClient.OnFlushed` | goar-production/static/novnc/core/rfb.js:2643-2650 | The end of a pause: what has arrived meanwhile is handled |
| `RfbClientModel.RfbClient.OnEvents` | goar-production/static/novnc/core/rfb.js:992-1014 | Any network messages that fit, and ends of pauses, in any order are Deliver on them |
| `DisplayModel.PerformKeepsInStep` | goar-production/static/novnc/core/display.js:316-430 | Fills, copies, blits, images and frames with the damage they report leave every visible pixel outside the damage showing the backbuffer |
| `DisplayModel.FlipIsRepaint` | goar-production/static/novnc/core/display.js:253-297 | Copying only the damaged window, with all its clipping, equals repainting the whole viewport |
| `DisplayModel.FlipShowsWindow` | goar-production/static/novnc/core/display.js:253-297 | After a flip the canvas is the viewport window of the backbuffer, pixel for pixel, iff no never-drawn backbuffer pixel of the window lies over old contents |
| `DisplayModel.PerformPixels` | goar-production/static/novnc/core/display.js:316-430 | What every request draws, pixel by pixel: copies and images draw their solid pixels from the place asked for over what is there, fills and blits replace it, nothing else changes |
| `DisplayModel.PixelsAreDrawn` | goar-production/static/novnc/core/display.js:316-430 | After any list of requests every pixel is the one a reference on single pixels says |
| `DisplayModel.DamageIsTight` | goar-production/static/novnc/core/display.js:235-249 | The damage is the smallest rectangle that takes in the old one and the one drawn to |
| `DisplayModel.UndrawnKeepsOld` | goar-production/static/novnc/core/display.js:253-297 | A run of the display: resize, clip, shrink the viewport, fill, flip and move; the canvas then shows an old pixel where the backbuffer has none |
| `DisplayModel.ResizeKeepsInStep` | goar-production/static/novnc/core/display.js:189-214 | A resized backbuffer keeps the invariant |
| `DisplayModel.MoveFits` | goar-production/static/novnc/core/display.js:92-132 | A move ends inside the framebuffer iff the viewport is no larger than it and is not left of it unless moved left |
| `DisplayModel.MoveGoesThere` | goar-production/static/novnc/core/display.js:92-132 | With clipping a viewport inside goes exactly where it is moved, in both directions, as far as the edges |
| `DisplayModel.RefittedKeepsPlace` | goar-production/static/novnc/core/display.js:134-173 | It keeps its place and size through clipping and resizing, but for what there is no room for |
| `DisplayModel.SizedFits` | goar-production/static/novnc/core/display.js:134-173 | A change of size ends inside the framebuffer iff it changes nothing inside, or the viewport was not left of it, or clipping is off and there is a width |
| `DisplayModel.RefittedFits` | goar-production/static/novnc/core/display.js:74-80 | A change of clipping or of the framebuffer ends inside it, and without clipping as all of it, iff the viewport did not start left of it, or clipping is off and the framebuffer has a width |
| `DisplayModel.LeftOfFramebuffer` | goar-production/static/novnc/core/display.js:92-132 | A run that ends outside: a display on a 5 by 5 canvas, one move, clipping, a resize to 10 by 10 |
| `DisplayModel.LeftMoveReturns` | goar-production/static/novnc/core/display.js:99-107 | Any move to the left brings a viewport that fits back inside |
| `DisplayModel.BlitFormsAgree` | goar-production/static/novnc/core/display.js:394-420 | The queued form of a blit draws the same as the immediate one, whatever lies below, iff the pixels at the place asked for look like those at the front of the buffer |
| `DisplayModel.AlikeListsDrawAlike` | goar-production/static/novnc/core/display.js:482-577 | The drained backbuffer looks as the callers asked when each queued blit looks like the one asked for |
| `DisplayModel.QueuedBlitReadsFront` | goar-production/static/novnc/core/display.js:394-420 | A run that fails this: a blit behind an image not yet ready is drawn from the front of its buffer |
| `DisplayModel.Display.BlitImage` | goar-production/static/novnc/core/display.js:394-420 | With the whole underlying buffer and the place that byteOffset and offset lead to: drawn at once from that place on an empty queue, otherwise queued with the pixels at the front of the buffer |
| `DisplayModel.Display.FlipNow` | goar-production/static/novnc/core/display.js:259-296 | The flip code computes the window, and clears the damage |
| `DisplayModel.Display.Request` | goar-production/static/novnc/core/display.js:316-362 | On an empty queue drawn at once, with the pixels of the reference, otherwise only queued; either way issued once |
| `DisplayModel.Display.ImageRect` | goar-production/static/novnc/core/display.js:364-381 | Images are queued, empty ones ignored, a loaded one of the right size at an empty queue is drawn, pixel for pixel |
| `DisplayModel.Display.VideoFrame` | goar-production/static/novnc/core/display.js:383-392 | The same for video frames, whatever their size |
| `DisplayModel.Display.RenderQPush` | goar-production/static/novnc/core/display.js:482-489 | Scans only when the queue was empty; the refinement invariant is kept |
| `DisplayModel.Display.ScanRenderQ` | goar-production/static/novnc/core/display.js:498-577 | Carries out exactly the longest ready prefix, in order, none of it before it is loaded; then waits for its head or resolves the flush promise |
| `DisplayModel.Display.WakeUp` | goar-production/static/novnc/core/display.js:491-496 | A load event resumes the queue; if everything queued is loaded in the right size it drains, and the backbuffer has the pixels of the reference after all requests |
| `DisplayModel.Display.Flush` | goar-production/static/novnc/core/display.js:303-314 | Resolved at once iff the queue is empty, else the one promise that stays open until it drains |
| `DisplayModel.Display.ViewportChangePos` | goar-production/static/novnc/core/display.js:92-132 | With clipping, from inside: the position plus the move where that fits, else the edge, on each axis; a move damages everything and flips, no move changes nothing |
| `DisplayModel.Display.ViewportChangeSize` | goar-production/static/novnc/core/display.js:134-173 | The limited size, moved inside; after a change the canvas, if nothing is queued, shows the window of the backbuffer pixel for pixel; inside stays inside |
| `DisplayModel.Display.SetClipViewport` | goar-production/static/novnc/core/display.js:74-80 | The exact viewport afterwards; it is inside the framebuffer iff it was not left of it before, or clipping is off and the framebuffer has a width |
| `DisplayModel.Display.Resize` | goar-production/static/novnc/core/display.js:189-221 | The same for a resize, although the bound breaks midway; contents and queue survive |
| `HandshakeStream.VeNCryptGrows` | goar-production/static/novnc/core/rfb.js:1678-1758 | The VeNCrypt sub-state only grows, and bytes are consumed exactly when it does or the negotiation fails |
| `HandshakeStream.VeNCryptResumes` | goar-production/static/novnc/core/rfb.js:1678-1758 | Under any chunking each VeNCrypt field is consumed once: going on with more bytes is the run over all of them |
| `HandshakeModel.Handshake.NegotiateVeNCryptAuth` | goar-production/static/novnc/core/rfb.js:1678-1758 | The fall-through code computes that run, with what it sends, and ends in a scheme, a wait or a failure exactly as the run does |
| `HandshakeModel.Handshake.Choose` | goar-production/static/novnc/core/rfb.js:1556-1596 | The first type in the server's order among the nine the client speaks, VeNCrypt passed over where asked; -1 iff there is none |
| `HandshakeWire.ChoiceIsFirst` | goar-production/static/novnc/core/rfb.js:1556-1596 | The same for the choice the stream functions make |
| `HandshakeWire.KnownVersions` | goar-production/static/novnc/core/rfb.js:1503-1529 | Which version texts stand for which version |
| `HandshakeWire.VersionTaken` | goar-production/static/novnc/core/rfb.js:1503-1554 | A ProtocolVersion message as laid out is answered with its version, a repeater with the id, anything else ends the connection |
| `HandshakeModel.Handshake.NegotiateProtocolVersion` | goar-production/static/novnc/core/rfb.js:1503-1554 | Waits for 12 bytes; refuses, answers a repeater, or agrees on at most 3.8 |
| `HandshakeModel.Handshake.NegotiateSecurity` | goar-production/static/novnc/core/rfb.js:1572-1621 | The exact outcome for every version and every offer: scheme, position, state and what is sent |
| `HandshakeModel.Handshake.ChooseFromList` | goar-production/static/novnc/core/rfb.js:1573-1603 | The outcome for every list of types, with the goback to its length byte |
| `HandshakeModel.Handshake.HandleSecurityReason` | goar-production/static/novnc/core/rfb.js:1623-1652 | Reports status and reason and disconnects iff length and text are all there, consuming exactly them; otherwise nothing happens |
| `HandshakeModel.Handshake.NegotiateAuthentication` | goar-production/static/novnc/core/rfb.js:2079-2120 | The exact outcome by scheme; ClientInitialisation follows directly iff the scheme is None and the version below 3.8 |
| `HandshakeModel.Handshake.NegotiateStdVNCAuth` | goar-production/static/novnc/core/rfb.js:1782-1799 | Answers iff the challenge and a password are there; otherwise consumes nothing |
| `HandshakeModel.Handshake.HandleSecurityResult` | goar-production/static/novnc/core/rfb.js:2122-2145 | Status 0 goes on, anything else ends in a reason (3.8) or a failure |
| `HandshakeModel.Handshake.NegotiateServerInit` | goar-production/static/novnc/core/rfb.js:2147-2236 | Succeeds iff header, name and, with TightVNC, all capabilities are there, and consumes exactly them; connects only from connecting |
| `HandshakeModel.Handshake.InitMsg` | goar-production/static/novnc/core/rfb.js:2290-2320 | One step has exactly the outcome its state calls for, keeps the order of the handshake, and makes progress when it asks to go on |
| `HandshakeModel.Handshake.HandleMessage` | goar-production/static/novnc/core/rfb.js:992-1021 | The connecting loop ends, having taken exactly the steps the received bytes and the foreign negotiations allow; without data or in another state it does nothing |
| `HandshakeModel.Handshake.OnMessages` | goar-production/static/novnc/core/rfb.js:992-1021 | Any network messages that fit are InitDeliver on them |
| `HandshakeStream.HandshakeIgnoresChunks` | goar-production/static/novnc/core/rfb.js:1572-2320 | From Security on, with credentials given and no foreign negotiation, any chunks give the outputs and the end of all the bytes at once |
| `HandshakeStream.InitStepIgnoresTail` | goar-production/static/novnc/core/rfb.js:2290-2320 | A step that consumes bytes takes a complete message: more bytes behind it change nothing |
| `HandshakeWire.ServerIsJoined` | goar-production/static/novnc/core/rfb.js:1572-2236 | A server that offers None, VNC, XVP or, by VeNCrypt, Plain or any of these, in any version, accepts and sends its ServerInit, TightVNC lists included, is joined, with exactly the messages due and nothing left over |
| `HandshakeWire.RefusalIsReported` | goar-production/static/novnc/core/rfb.js:1572-1652 | A server that refuses before offering anything is reported with status 1 and its reason, and left |
| `HandshakeWire.RejectionIsReported` | goar-production/static/novnc/core/rfb.js:2122-2145 | A rejected authentication is reported with its status, and from 3.8 on its reason |
| `HandshakeWire.NothingToTake` | goar-production/static/novnc/core/rfb.js:1588-1600 | An offer without any known type ends the connection |
| `HandshakeWire.CredentialsAreAskedFor` | goar-production/static/novnc/core/rfb.js:1654-1676 | Without the credentials a scheme needs the user is asked and nothing consumed |
| `HandshakeWire.VeNCryptIsRefused` | goar-production/static/novnc/core/rfb.js:1678-1758 | Another VeNCrypt version, a refused one, none or no known subtype end the connection |
| `HandshakeWire.ServerIsJoinedInChunks` | goar-production/static/novnc/core/rfb.js:1572-2236 | The same however its bytes are cut into chunks |
| `HandshakeModel.Handshake.EventsAtMostOnce` | goar-production/static/novnc/core/rfb.js:863-955 | In every reachable state the connect event has been raised at most once, and the disconnect event once exactly in the disconnected state |
| `HandshakeStream.AllowedTransitions` | goar-production/static/novnc/core/rfb.js:863-909 | The five transitions between connection states |
| `HandshakeModel.Handshake.UpdateConnectionState` | goar-production/static/novnc/core/rfb.js:863-955 | Only allowed transitions happen; one connect and one disconnect event at most; the timer is pending exactly while disconnecting |
| `HandshakeModel.Handshake.Fail` | goar-production/static/novnc/core/rfb.js:962-984 | Any failure after connecting began ends disconnected and unclean |
| `HandshakeModel.Handshake.SocketClose` | goar-production/static/novnc/core/rfb.js:659-694 | The close event always ends disconnected, once |
| `HandshakeModel.Handshake.ConnectedMeansNegotiated` | goar-production/static/novnc/core/rfb.js:2290-2320 | In every reachable state, whoever connected passed ProtocolVersion, Security, Authentication, ClientInitialisation and ServerInitialisation in order, and left out SecurityResult only for None below 3.8 |
| `Checkpoint.RevertRaises` | goar-production/goar_vibe_core.py:336-347 | A revert raises iff some change has no bounded text snapshot |
| `Checkpoint.RevertThere` | goar-production/goar_vibe_core.py:337-348 | A changed path gets back what was recorded before the turn |
| `Checkpoint.CapturesKnow` | goar-production/goar_vibe_core.py:289-302 | When writes are announced, each row's before state is the file at the start of the turn, and its after state the present one unless the file was written since |
| `Checkpoint.TurnIsUndone` | goar-production/goar_vibe_core.py:304-348 | Reverting a bracketed turn restores all files iff each changed file was recoverable beforehand |
| `Checkpoint.TurnsAreUndone` | goar-production/goar_vibe_core.py:304-353 | At most 250 bracketed turns over recoverable files are all undone by reverting newest first |
| `Checkpoint.GoarCheckpointLedger.RunAndRevert` | goar-production/goar_vibe_core.py:284-353 | The same on the ledger itself, whatever events it held before: begin, captures, writes, seal for each turn, then a review of each, newest first, leave the files they started from |
| `Checkpoint.AfterAloneDeletes` | goar-production/goar_vibe_core.py:296-302 | Without capture_before, reverting an overwrite deletes the file |
| `Checkpoint.GoarCheckpointLedger.CaptureBefore` | goar-production/goar_vibe_core.py:289-294 | Only the first capture of a path in a turn counts |
| `Checkpoint.GoarCheckpointLedger.CaptureAfter` | goar-production/goar_vibe_core.py:296-302 | The latest capture counts |
| `Checkpoint.GoarCheckpointLedger.Seal` | goar-production/goar_vibe_core.py:304-318 | Records exactly the rows whose states differ, in the order first captured, and keeps the newest 250 events |
| `Checkpoint.LastWriteStands` | goar-production/goar_vibe_core.py:284-302 | Captures leave files alone: after a turn's steps a path has what was written last, or what it had |
| `Checkpoint.GoarCheckpointLedger.Review` | goar-production/goar_vibe_core.py:323-353 | Keep changes no file; revert restores newest change first; the newest 500 decisions are recorded with the paths restored, but a failing revert leaves what was restored before it and records nothing |
| `Base64Codec.Encode` | goar-production/static/novnc/core/base64.js:14-43 | The encoding of RFC 4648, section 4 |
| `Base64Codec.LeftBits` | goar-production/static/novnc/core/base64.js:69-99 | Bits are left over iff the legal characters are not a multiple of four |
| `Base64Codec.Decode` | goar-production/static/novnc/core/base64.js:59-103 | Throws iff the legal code units, padding included, are not a multiple of four; otherwise the pre-sized array with the decoded bytes written from the front |
| `Base64Codec.TableIsAlphabet` | goar-production/static/novnc/core/base64.js:10-12 | The alphabet of RFC 4648, in its order |
| `Base64Codec.GroupsHoldTheirBytes` | goar-production/static/novnc/core/base64.js:14-43 | Four characters are the 24-bit number of three bytes; missing bytes are zero and padding stands for them |
| `Base64Codec.GroupDecodes` | goar-production/static/novnc/core/base64.js:69-93 | Any four legal code units give the three bytes of their number, less those that end with padding |
| `Base64Codec.IllegalIsSkipped` | goar-production/static/novnc/core/base64.js:75-82 | Illegal code units are passed over, wherever they stand |
| `Base64Codec.LegalByLowBits` | goar-production/static/novnc/core/base64.js:75-82 | Legal is the alphabet, the padding character, and every code unit whose low seven bits spell one of them |
| `Base64Codec.StrayHalfPasses` | goar-production/static/novnc/core/base64.js:75-82 | The witness: three legal characters and an emoji do not throw |
| `Base64Codec.EncodedPadding` | goar-production/static/novnc/core/base64.js:60-65 | Where the padding of an encoding starts, which is what decode sizes its result by |
| `Base64Codec.RoundTrip` | goar-production/static/novnc/core/base64.js:14-103 | For every byte array, decoding its encoding fills every slot with the original bytes |
| `Base64Codec.EncodeThenDecode` | goar-production/static/novnc/core/base64.js:14-103 | The two methods one after the other do not throw and return the input |
| `JsonPatch.ApplyJsonPatch` | proot/alpine-vibe-mistral/vibe/app_server/_patch.py:14-25 | Operations on objects and arrays are applied one by one, each append turned into a replace on the document of that moment; an exception ends it |
| `JsonPatch.MakeJsonPatch` | proot/alpine-vibe-mistral/vibe/app_server/_patch.py:28-54 | An operation becomes an append of the difference iff it is a replace on an append path whose new string extends the old one, else stays; raises iff such a path leads nowhere |
| `JsonPatch.ArrayIndexIs` | proot/alpine-vibe-mistral/vibe/app_server/_patch.py:40 | A token is an array index iff it is its decimal numeral |
| `JsonPatch.ResolveMeans` | proot/alpine-vibe-mistral/vibe/app_server/_patch.py:40 | What a pointer leads to, by members and elements |
| `JsonPatch.AddToObject` | proot/alpine-vibe-mistral/vibe/app_server/_patch.py:72-77 | An add sets exactly that member |
| `JsonPatch.AddToArray` | proot/alpine-vibe-mistral/vibe/app_server/_patch.py:72-77 | An add puts the value at its index or the end and moves later elements up; when it succeeds |
| `JsonPatch.RemoveFromObject` | proot/alpine-vibe-mistral/vibe/app_server/_patch.py:70-71 | A remove takes exactly that member away, iff it is there |
| `JsonPatch.RemoveFromArray` | proot/alpine-vibe-mistral/vibe/app_server/_patch.py:70-71 | A remove takes the element out and moves later ones down, iff it is there |
| `JsonPatch.OthersMean` | proot/alpine-vibe-mistral/vibe/app_server/_patch.py:57-77 | What replace, test and append do, and when they fail |
| `JsonPatch.ResolveAfterUpdate` | proot/alpine-vibe-mistral/vibe/app_server/_patch.py:57-77 | An update apart from a pointer, in objects or arrays, does not change what the pointer finds unless it moves an array element the pointer passes through |
| `JsonPatch.AppendIsReplace` | proot/alpine-vibe-mistral/vibe/app_server/_patch.py:40-53 | An append does what the replace does iff the document still holds the string the suffix was computed from, or nothing |
| `JsonPatch.RewriteIsExact` | proot/alpine-vibe-mistral/vibe/app_server/_patch.py:14-54 | Both lists agree after every operation iff each rewritten path, when its turn comes, still holds the source's string, or nothing |
| `JsonPatch.RewritePreservesMeaning` | proot/alpine-vibe-mistral/vibe/app_server/_patch.py:14-54 | They do agree when no earlier operation ends at a rewritten path or above it, or moves an array element on it |
| `JsonPatch.ContentIsStreamed` | proot/alpine-vibe-mistral/vibe/app_server/events.py:120-155 | On the program's own path through the content array, text that grows is rewritten and both forms give the same entry |
| `JsonPatch.TouchedPathDiffers` | proot/alpine-vibe-mistral/vibe/app_server/_patch.py:40-53 | With a replace of the same path in front the two lists give different documents |
| `JsonPatch.ShiftedElementDiffers` | proot/alpine-vibe-mistral/vibe/app_server/_patch.py:40-53 | So they do with a removal in front of an element of a member array on the path |
| `WakeLockModel.WakeLockManager.Acquire` | goar-production/static/novnc/app/wakelock.js:84-108 | The new state for each old one; nothing is requested twice |
| `WakeLockModel.WakeLockManager.Release` | goar-production/static/novnc/app/wakelock.js:110-137 | No lock is alive afterwards, and a request under way is marked unwanted |
| `WakeLockModel.WakeLockManager.Grant` | goar-production/static/novnc/app/wakelock.js:169-180 | A granted lock is kept iff still wanted, else given back in the same step |
| `WakeLockModel.WakeLockManager.Reject` | goar-production/static/novnc/app/wakelock.js:160-164 | A refused request ends released |
| `WakeLockModel.WakeLockManager.BrowserReleases` | goar-production/static/novnc/app/wakelock.js:182-190 | Reacquired later iff the document is hidden |
| `WakeLockModel.WakeLockManager.VisibilityChanges` | goar-production/static/novnc/app/wakelock.js:192-198 | Only a waiting manager that becomes visible requests again |
| `WakeLockModel.WakeLockManager.LatestCallDecides` | goar-production/static/novnc/app/wakelock.js:6-12 | In every reachable state: after a release nothing is held and, with nothing outstanding, the manager is at rest; after an acquire it holds, requests or waits unless refused since |
| `Pagination.ForwardPage` | proot/alpine-vibe-mistral/vibe/app_server/_handler.py:966-1011 | A forward page has the next limit turns, and cursors exactly where there are more on either side |
| `Pagination.BackwardPage` | proot/alpine-vibe-mistral/vibe/app_server/_handler.py:966-1011 | A backward page has the previous limit turns, and cursors the other way round |
| `Pagination.WalkForward` | proot/alpine-vibe-mistral/vibe/app_server/_handler.py:966-1011 | Following next cursors forwards returns the turns in order, each once, and stops by itself |
| `Pagination.WalkBackward` | proot/alpine-vibe-mistral/vibe/app_server/_handler.py:966-1011 | The same backwards |
| `Pagination.TurnRound` | proot/alpine-vibe-mistral/vibe/app_server/_handler.py:1002-1011 | previous_cursor used backwards returns the adjacent page and leads back |
| `Pagination.TurnRoundBackward` | proot/alpine-vibe-mistral/vibe/app_server/_handler.py:1002-1011 | The same from a backward page |
| `Pagination.NothingToShow` | proot/alpine-vibe-mistral/vibe/app_server/_handler.py:977-1001 | An unknown cursor gives an empty page without cursors in both directions |
| `Pagination.SplitPayload` | proot/alpine-vibe-mistral/vibe/app_server/_host.py:528-543 | A cursor decodes to the session it was made from when the time stamp has no NUL |
| `Pagination.PadStripped` | proot/alpine-vibe-mistral/vibe/app_server/_host.py:528-536 | Taking the padding off a base64 text and putting it back by its length changes nothing |
| `Pagination.CursorRoundTrip` | proot/alpine-vibe-mistral/vibe/app_server/_host.py:528-540 | An encoded cursor decodes to the session it was made from, when the time stamp has no NUL |
| `Pagination.WalkSessionsVisitsAll` | proot/alpine-vibe-mistral/vibe/app_server/_host.py:472-551 | Following next cursors, as encoded, lists every session once, in order, and stops by itself after no more requests than sessions |
| `Pagination.UnknownSession` | proot/alpine-vibe-mistral/vibe/app_server/_host.py:533-551 | A cursor that does not decode or names no session gives an empty page and no cursor |
| `SessionRoots.SessionRoot` | proot/alpine-vibe-mistral/vibe/app_server/_host.py:516-525 | Terminates on every parent map and returns the top of the chain, or the session itself iff the chain has no top |
| `SessionRoots.SessionRoots` | proot/alpine-vibe-mistral/vibe/app_server/_host.py:512-525 | The same for all sessions |
| `SessionRoots.StepUp` | proot/alpine-vibe-mistral/vibe/app_server/_host.py:517 | One step up leads to the parent on record iff that is a known session |
| `SessionRoots.LoopIsCyclic` | proot/alpine-vibe-mistral/vibe/app_server/_host.py:520-522 | A chain that meets itself has no top |
| `SessionRoots.RootIsShared` | proot/alpine-vibe-mistral/vibe/app_server/_host.py:512-525 | A session whose chain has a top shares its root with its parent |
| `RA2.BumpAddsOne` | goar-production/static/novnc/core/ra2.js:23 | The carry loop adds one to the little-endian counter, wrapping at its size |
| `RA2.CounterIsCount` | goar-production/static/novnc/core/ra2.js:16-39 | After any number of messages the counter is their number modulo 2^128 |
| `RA2.NoncesDiffer` | goar-production/static/novnc/core/ra2.js:16-39 | No nonce repeats within the first 2^128 messages |
| `RA2.RA2Cipher.Increment` | goar-production/static/novnc/core/ra2.js:23 | The in-place loop performs the carry |
| `RA2.RA2Cipher.MakeMessage` | goar-production/static/novnc/core/ra2.js:16-28 | Two length bytes, the more significant first, and the encryption under the nonce that counts the messages before, with these bytes as additional data |
| `RA2.ReaderTakesAll` | goar-production/static/novnc/core/ra2.js:16-39 | The two header bytes make a reader take the whole message iff it is shorter than 65536 bytes |
| `RA2.Converse` | goar-production/static/novnc/core/ra2.js:16-39 | Messages sent one after another are read back from the stream by their headers: both ends use the same nonce each time |
| `KeyInputModel.KeyboardInput.KeyInput` | goar-production/static/novnc/app/ui.js:1673-1732 | In code units: keeping the old text less the backspaces and adding the keys gives the new text; backspaces are the old length less the longest common prefix |
| `KeyInputModel.FewestBackspaces` | goar-production/static/novnc/app/ui.js:1704-1714 | No edit of the end of the text does with fewer backspaces |
| `KeyInputModel.TypedText` | goar-production/static/novnc/app/ui.js:1684-1722 | All keys sent are code units of the new text iff the caret is inside it, and then they are its end, in order |
| `KeyInputModel.TypedCharacters` | goar-production/static/novnc/app/ui.js:1704-1722 | The keys sent are characters iff the caret is inside the text and no half of a surrogate pair is among them |
| `KeyInputModel.BackspacesForCharacters` | goar-production/static/novnc/app/ui.js:1704-1719 | There are as many backspaces as characters to remove iff no surrogate pair is removed |
| `KeyInputModel.EmojiRun` | goar-production/static/novnc/app/ui.js:1684-1722 | The witness: an emoji typed, changed and deleted is sent as halves, as one half, and as two backspaces |
| `LeaseStore.SessionLeaseStore.Acquire` | goar-production/goar_vibe_core.py:141-152 | Granted iff there is no record, or its owner is empty or the same, or it has expired |
| `LeaseStore.SessionLeaseStore.Release` | goar-production/goar_vibe_core.py:154-159 | Only the owner's record is removed |
| `LeaseStore.SessionLeaseStore.Exclusion` | goar-production/goar_vibe_core.py:133-159 | In every reachable state two properly named owners never both hold an unreleased, unexpired latest grant |
| `LeaseStore.EmptyNameIsTaken` | goar-production/goar_vibe_core.py:147-151 | A lease under the empty name does not keep others out |

## Left out

- WebsockModel.Websock.RecvMessage: after a receive that throws, the recorded buffer size no longer matches the buffer, and the model claims nothing further; event registration and opening of sockets are not modelled.
- WebsockModel.Websock.SQpushBytes: with the socket not open only pushes that fit are covered; the source loops or drops bytes there.
- RfbStream.RectBody: the VMware cursor and the Hextile, Zlib, Tight, TightPNG, ZRLE, JPEG and H.264 rectangles end the modelled run with an OutsideModel output; their payloads are inflated or decoded by code outside this model.
- RfbClientModel.RfbClient.HandleRect: stops where RectBody does.
- RfbClientModel.RfbClient.HandleCursor: hands on pixels and mask; turning them into an image is left out.
- RfbClientModel.RfbClient.HandleServerCutText: extended clipboard messages end the modelled run in the same way.
- RfbClientModel.RfbClient.HandleMessage: the user does not change viewOnly during a run, and the connection is not closed by the user in the middle of a message. What display.pending() answers is a parameter.
- RfbClientModel.RfbClient: texts stay bytes; UTF-8 decoding, the clipboard, the window-dependent part of a remote resize request and the bytes of client messages are not modelled. The raw decoder makes pixels opaque in the receive buffer itself; the model does so on a copy.
- RfbWire.MessagesAreUnderstood: messages that leave the model have no layout; those that make the client fail are in OffencesFail.
- DisplayModel.Display.BlitImage: buffers are pixels, so offsets are multiples of four bytes; a buffer too short for the queued form, where the source throws, is read as undrawn pixels.
- DisplayModel.Display: pixels are opaque or never drawn, so partial transparency is not modelled; scaling, absX, absY, getImageData and drawImage called from outside the queue are left out; sizes are never negative.
- DisplayModel.Display.ScanRenderQ: an image of the wrong size stops the queue, as in the source, and nothing is claimed about it afterwards.
- HandshakeModel.Handshake.NegotiateAuthentication: ARD, RA2, Tight, MS-Logon and Unix logon negotiation stand as one step that waits, fails, succeeds or switches scheme and consumes some bytes; DES and the sending of messages are outputs only.
- HandshakeModel.Handshake.HandleMessage: foreign negotiations are a list of turns; bytes left over when the loop ends wait for the next message, as in the source, which is why chunking independence starts after ProtocolVersion.
- Checkpoint: real files, directories, symbolic links, path checks, JSON storage and time stamps; digests are taken as injective and ids as unique.
- Base64Codec: the tables are written as functions on ranges of codes; logging of illegal characters is left out.
- JsonPatch: the diff of the library is an input, and pointers and operations follow RFC 6901 and RFC 6902 where the library is more lenient (indexing into strings, leading zeros); a move or copy in the diff, which the operation model refuses, is left out; `~` escapes of pointers are taken as decoded.
- WakeLockModel: events are atomic steps; listeners of the test-only state change event that call back into the manager are not modelled, so the error state is never seen between two steps.
- Pagination.WalkSessionsVisitsAll: loading, filtering and sorting of sessions; a page is taken from the list already sorted. UTF-8 and the base64 decoder of the library are parameters that undo the encoders.
- RA2: encryption is an abstract invertible function, and calls do not overlap; the rest of the RSA-AES exchange is not modelled.
- KeyInputModel: keysym lookup, focus and timers.
- LeaseStore: storage in files, and records that are not well formed.
- Plan transitions, configuration layers, loop limits, routing, accounts and user interface code would only add easy claims.
