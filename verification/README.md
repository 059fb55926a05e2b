# Verification of the iDisplay Windows host

The host streams a desktop to one iOS client on the same network: a control server pairs the client, a
capture thread turns desktop frames into H.264 NALs, a UDP sender cuts them into packets, and a UDP
receiver takes touches back. This project models the protocol and state code of `src/` in Dafny and proves
what it keeps over whole runs. `dafny verify dfyconfig.toml` checks everything.

| file | what it models |
|---|---|
| `Bits.dfy` | bitwise and and or by binary digits, and what masks, flags and disjoint fields make of them |
| `Bytes.dfy` | big-endian put and get helpers, 32-bit counters |
| `VideoCodec.dfy` | the 29-byte video header and the frame chunker |
| `UdpServer.dfy` | `UdpServer` one call at a time: chunking in place in one reused buffer |
| `SenderSystem.dfy` | concurrent `sendFrame` and `setClientEndpoint` calls as a step system |
| `SenderWire.dfy` | where each attempt goes and what it carries, in terms of the calls; that frames are sent in full |
| `SenderOrder.dfy` | in which order frame ids reach the wire |
| `Reassembly.dfy` | a receiver of the stream, after the decoder in `tests/test_protocol.cpp`, and the end-to-end result |
| `InputCodec.dfy`, `InputReceiver.dfy` | the touch packet and its receive loop |
| `Lan.dfy` | dotted-quad parser and private ranges |
| `Pairing.dfy` | the pairing gate with its lazy timeout |
| `CtrlServer.dfy`, `SessionDiscipline.dfy` | line framing, dispatch, accept loop, and what every connection keeps |
| `Pipeline.dfy` | `App::onPaired`, `onUnpaired`, `onCaptureFrame` and the capture threads as a step system |
| `PipelineFrames.dfy` | what is sent for one captured frame |
| `PipelineHistory.dfy` | what streaming, captures and frames owe to the history of those calls |
| `HostSystem.dfy` | the control server's calls driving the pipeline |
| `Capture.dfy` | the capture loop with its clock: idle, resume, acquire and release |
| `CaptureThread.dfy` | that loop as a walk of the pipeline's capture thread |
| `ColorConvert.dfy` | BGRA to NV12 |

Code that updates fields or buffers is a class or a method on arrays with loops; each such method is
proved equal to a function of its inputs, and the properties are proved about that function. Code that
several threads run is a state machine whose steps are the single shared accesses, and its results hold
for every schedule.

Conventions: machine integers are bounded integers with explicit wrap-around; a right shift is a floor
division and a left shift a multiplication; bitwise and and or are the functions of `Bits`; floats are their
32-bit patterns. The clock, the token generator (which may return the empty string), the user's answers, the
meaning of a line of JSON, the outcome of each socket, DXGI and encoder call are inputs of the model,
different at every use.

## What came out

- A frame survives chunking and reassembly if and only if it has at most 65535 chunks; beyond that the
  16-bit chunk fields wrap (`Reassembly.FrameSizeLimit`).
- `writeInputPacket` writes up to 255 touches, but a packet reaches the callback if and only if it has at
  most 226, because the receive buffer holds 2048 bytes (`InputReceiver.DeliveryLimit`).
- If the token generator fails, `accept` leaves the gate Paired with an empty token and the client is told
  "timeout"; the gate then fails closed and answers at most "busy" until the client leaves
  (`SessionDiscipline.RequestOutcome`, `EmptyTokenLocksOut`).
- The lazy timeout equals an exact deadline under a clock that never goes back
  (`Pairing.LazyExpiryIsDeadline`). The application's `steady_clock` is one; for any other clock, a prompt
  stamped s survives a reading t exactly if t is in [s, s + timeout) or more than 2^64 - timeout behind s
  (`Pairing.PromptSurvivesExactly`).
- Frame ids are drawn before the send mutex. They reach the wire in order in every schedule of some calls if
  and only if the socket is closed, no call sets an endpoint, or at most one call sends
  (`SenderOrder.InOrderExactly`), and in every run in which no two calls wait for the mutex at once
  (`OrderedWithoutContention`).
- The usage flow in the repository's `README.md` says that Deny closes the connection. The code keeps it
  open and idle, and prompts again for each further request; of the lines, only DISCONNECT ends it
  (`SessionDiscipline.DeniedMayAskAgain`, `OnlyDisconnectEnds`). The model follows the code.

## Model

| member | source | states |
|---|---|---|
| Bits.OrBytes | src/network/protocol.hpp:61-63 | the or of four shifted bytes is their base-256 sum, also in parseIPv4 |
| Bits.FlagsOf | src/network/protocol.hpp:85-105 | setting and testing the two flag bits |
| Bits.Netmasks | src/network/lan.hpp:33-37 | the gate's netmasks clear the low-order 24, 20 or 16 bits |
| Bytes.BEToBE | src/network/protocol.hpp:53-68 | reading a 16, 32 or 64-bit field returns what was written |
| Bytes.ToBEBE | src/network/protocol.hpp:53-68 | writing what was read restores the bytes |
| Bytes.PutU16 | src/network/protocol.hpp:53 | the two bytes at the offset become the encoding, all others stay |
| Bytes.PutU32 | src/network/protocol.hpp:54-56 | the same for four bytes |
| Bytes.PutU64 | src/network/protocol.hpp:57-59 | the loop writes the eight bytes of the encoding and no others |
| Bytes.GetU16 | src/network/protocol.hpp:60 | the big-endian value of two bytes |
| Bytes.GetU32 | src/network/protocol.hpp:61-63 | the big-endian value of four bytes |
| Bytes.GetU64 | src/network/protocol.hpp:64-68 | the loop computes the big-endian value, losing no bit to the shift |
| VideoCodec.WriteVideoHeader | src/network/protocol.hpp:76-91 | 29 encoded bytes at the front and nothing else, or nothing at all if the buffer is too small |
| VideoCodec.ReadVideoHeader | src/network/protocol.hpp:94-110 | returns exactly what HeaderCodec characterizes |
| VideoCodec.HeaderCodec | src/network/protocol.hpp:76-110 | a byte string decodes to h if and only if it starts with the encoding of h up to six ignored flag bits and holds the payload of at most 1371 bytes that h names |
| VideoCodec.HeaderRoundTrip | src/network/protocol.hpp:76-110 | reading after writing is the identity, with any payload behind the header |
| VideoCodec.HeaderLayout | src/network/protocol.hpp:76-91 | the byte offset of every field, the magic "IDSP" and the two flag bits |
| VideoCodec.ReadLayout | src/network/protocol.hpp:94-110 | the same for reading, with the exact bytes that are rejected: short, wrong magic, more than 1371 payload bytes or more than there are |
| VideoCodec.BuildPacket | src/network/udp_server.cpp:42-54 | whatever the buffer held, its first bytes become the packet of chunk i |
| VideoCodec.ChunkFrame | src/network/protocol.hpp:115-142 | the loop returns the packets of the frame, sequence numbers wrapping at 2^32 |
| VideoCodec.ChunkConservation | src/network/protocol.hpp:115-142 | the payloads in order concatenate to the frame |
| VideoCodec.ChunkShape | src/network/protocol.hpp:115-142 | packet sizes, consecutive sequence numbers, and the last-chunk flag on exactly the final packet |
| VideoCodec.PacketCarries | src/network/protocol.hpp:124-137 | every packet of a frame reads as the caller's id, time stamp and key flag, its sequence number, its place, and the 1371 bytes that belong there |
| VideoCodec.ChunkFieldsExact | src/network/protocol.hpp:127-128 | totalChunks and chunkIndex are right for every chunk if and only if there are at most 65535 |
| UdpServer.UdpServer.SetClientEndpoint | src/network/udp_server.cpp:22-29 | the endpoint and the flag change, counters and wire do not |
| UdpServer.UdpServer.SendFrame | src/network/udp_server.cpp:31-62 | hands the network exactly the chunkFrame packets for the drawn frame id and sequence number, and returns true if and only if there is a client and a socket and every send was accepted |
| SenderSystem.AlwaysInv | src/network/udp_server.cpp:22-62 | mutual exclusion, distinct frame tickets, and the wire as finished blocks and one partial block, in every interleaving |
| SenderSystem.WireIsChunkedFrames | src/network/udp_server.cpp:31-62 | every interleaving sends the chunkFrame output of whole frames one after the other, only the last possibly unfinished |
| SenderSystem.SequenceNumbers | src/network/udp_server.cpp:45 | the k-th attempt carries k modulo 2^32, failed sends included |
| SenderSystem.FramesContiguous | src/network/udp_server.cpp:39-60 | the attempts of one frame id are one contiguous stretch to one endpoint, for up to 2^32 frames |
| SenderWire.AttemptOfCall | src/network/udp_server.cpp:22-60 | every attempt carries a chunk of one sendFrame call, with that call's key flag, time stamp and bytes, to the endpoint of the last setClientEndpoint call that had the mutex before it |
| SenderWire.OneEndpoint | src/network/udp_server.cpp:22-29 | with one setClientEndpoint call everything goes to its endpoint |
| SenderWire.ClientExactly | src/network/udp_server.cpp:28 | m_hasClient is set exactly once some setClientEndpoint call has stored its address |
| SenderWire.FrameSent | src/network/udp_server.cpp:31-60 | a sendFrame call that starts after a setClientEndpoint call returned has, when it returns, put all chunks of its frame on the wire in a row |
| SenderOrder.OrderedWithoutContention | src/network/udp_server.cpp:35-39 | frame ids along the wire never go down in any run in which no two calls wait between drawing the id and taking the mutex, for up to 2^32 frames |
| SenderOrder.InOrderExactly | src/network/udp_server.cpp:31-62 | for any calls: ids go down on the wire in no schedule if and only if the socket is not open, no call sets an endpoint, or at most one sends |
| SenderSystem.SenderProgress | src/network/udp_server.cpp:22-39 | while a call is unfinished, some call can go on |
| Reassembly.ReassemblyExact | tests/test_protocol.cpp:34-57 | under any reordering, duplication and loss a frame is its exact bytes if every chunk index arrived and reported incomplete otherwise |
| Reassembly.EndToEnd | src/network/udp_server.cpp:31-62 | the same for every interleaving of concurrent senders |
| Reassembly.DeliveryBound | src/network/protocol.hpp:94-110 | no datagrams at all make a receiver deliver more than 65535 chunks |
| Reassembly.FrameSizeLimit | src/network/protocol.hpp:115-142 | a frame received whole is restored if and only if it has at most 65535 * 1371 bytes |
| InputCodec.WriteInputPacket | src/network/protocol.hpp:148-165 | the encoded packet and its size, or 0 and an untouched buffer if it is too small or there are over 255 touches |
| InputCodec.ReadInputPacket | src/network/protocol.hpp:168-184 | returns exactly what InputCodecExact characterizes |
| InputCodec.InputCodecExact | src/network/protocol.hpp:145-184 | a byte string parses to a packet if and only if it begins with that packet's encoding |
| InputCodec.InputFraming | src/network/protocol.hpp:168-184 | bytes behind a packet change nothing and every strict prefix is rejected |
| InputCodec.InputLayout | src/network/protocol.hpp:148-155 | the byte offsets of the head and the magic "IDIP" |
| InputCodec.TouchLayout | src/network/protocol.hpp:156-163 | the byte offsets of id, x and y of each touch |
| InputReceiver.InputReceiver.Loop | src/network/input_receiver.cpp:35-52 | the callback sees what each datagram alone would deliver, in order, despite the reused buffer |
| InputReceiver.AcceptedExactly | src/network/input_receiver.cpp:36-50 | a datagram is delivered if and only if it is not empty, has at most 2048 bytes, comes from a LAN peer and begins with an encoded packet |
| InputReceiver.DeliveredInOrder | src/network/input_receiver.cpp:35-52 | each accepted datagram is delivered, at the place that counts the accepted ones before it, and nothing else |
| InputReceiver.DeliveryLimit | src/network/input_receiver.cpp:36-50 | a written packet is delivered if and only if it comes from a LAN peer and has at most 226 touches |
| Lan.ParseIPv4 | src/network/lan.hpp:13-29 | the one-pass automaton agrees with splitting at dots, rejections included |
| Lan.QuadGrammar | src/network/lan.hpp:13-29 | accepted are exactly four dotted fields of one to three digits of value at most 255, with the base-256 value |
| Lan.DecimalValues | src/network/lan.hpp:19-21 | the value of fields of one, two and three digits |
| Lan.ParsePrint | src/network/lan.hpp:13-29 | parsing the dotted print of any 32-bit address gives it back |
| Lan.PrivateRanges | src/network/lan.hpp:32-39 | the gate admits exactly 10/8, 172.16/12, 192.168/16, 169.254/16 and 127/8 |
| Pairing.PairingManager.ExpireIfNeeded | src/network/pairing.hpp:66-74 | drops a pending prompt when the clock says so, reading the clock only then |
| Pairing.PairingManager.OnRequest | src/network/pairing.hpp:28-35 | the new state, the answer and the clock reads of a request |
| Pairing.PairingManager.Accept | src/network/pairing.hpp:39-45 | the new state, the issued token and what was drawn |
| Pairing.PairingManager.Deny | src/network/pairing.hpp:48-52 | back to Idle without token and device |
| Pairing.PairingManager.Reset | src/network/pairing.hpp:55 | the same |
| Pairing.PairingManager.Validate | src/network/pairing.hpp:60-63 | the answer and the expiry it may cause |
| Pairing.GateAlways | src/network/pairing.hpp:28-74 | no token outside Paired and no device id in Idle, after every run |
| Pairing.LazyExpiryIsDeadline | src/network/pairing.hpp:28-74 | every answer is that of a machine that drops the prompt exactly at its deadline |
| Pairing.ExpiryCallsInvisible | src/network/pairing.hpp:65-74 | adding or removing expireIfNeeded calls changes no other answer |
| Pairing.PromptSurvivesExactly | src/network/pairing.hpp:39-74 | for any clock: a pending prompt stamped s is accepted if and only if the accept and every expireIfNeeded before it read a time in [s, s + timeout) or more than 2^64 - timeout below s |
| Pairing.TokenHistory | src/network/pairing.hpp:28-74 | validate accepts t if and only if t is non-empty and was issued by the first accept after a granted request, in time, with no deny or reset since |
| CtrlServer.LinesUnique | src/network/ctrl_server.cpp:75-79 | there is only one way to cut a stream into newline-free lines and a rest |
| CtrlServer.LinesCover | src/network/ctrl_server.cpp:75-79 | the lines with their newlines and the rest are the stream |
| CtrlServer.CtrlServer.Dispatch | src/network/ctrl_server.cpp:79-122 | one line's effect on gate, inputs used and events |
| CtrlServer.CtrlServer.ServeClient | src/network/ctrl_server.cpp:67-125 | for every cutting of a byte stream into segments, state and events are those of the stream's lines up to the first DISCONNECT |
| CtrlServer.TwoCuttings | src/network/ctrl_server.cpp:67-125 | two cuttings of the same bytes lead two equal servers to the same state and events |
| CtrlServer.CtrlServer.Loop | src/network/ctrl_server.cpp:44-60 | non-LAN peers change nothing, served ones end in reset and then onUnpaired |
| SessionDiscipline.RequestOutcome | src/network/ctrl_server.cpp:85-107 | all outcomes of a pair request; busy exactly while Paired, timeout exactly from 30 s on or without a token |
| SessionDiscipline.LineOutcome | src/network/ctrl_server.cpp:79-122 | what each line does: SET_PREFS makes its prefs call and PING gets its reply if and only if the token is that of an established session, a pair request has one of its outcomes, everything else changes nothing |
| SessionDiscipline.AckContent | src/app.cpp:33-38 | CONFIG_ACK carries the configured mode, aspect and size and the last non-zero rate asked for |
| SessionDiscipline.ConnectionDialogue | src/network/ctrl_server.cpp:67-125 | at each line boundary nothing awaits approval, and the events are denials, then at most one PAIR_ACCEPT, CONFIG_ACK, onPaired in a row, then only prefs calls, replies to that token and busy denials |
| SessionDiscipline.ClientEvents | src/network/ctrl_server.cpp:44-60 | each served connection starts from a clean slate and adds such a dialogue and one onUnpaired call |
| SessionDiscipline.ClientIsServed | src/network/ctrl_server.cpp:44-60 | a LAN client is served the lines of its stream under its dotted address, then onUnpaired is called |
| SessionDiscipline.AlwaysFresh | src/network/ctrl_server.cpp:57 | after any clients the gate is Idle with no token and no device |
| SessionDiscipline.DialogueCalls | src/network/ctrl_server.cpp:101 | a connection calls onPaired once if it established a session and never otherwise |
| SessionDiscipline.CallsBalance | src/network/ctrl_server.cpp:44-60 | onUnpaired is called once per served connection and onPaired at most as often |
| SessionDiscipline.OnlyDisconnectEnds | src/network/ctrl_server.cpp:80-122 | lines behind a DISCONNECT are never looked at, and without one every line is |
| SessionDiscipline.DeniedMayAskAgain | src/network/ctrl_server.cpp:85-107 | however often the user denies, the next request on the same connection is prompted for |
| SessionDiscipline.EmptyTokenLocksOut | src/network/ctrl_server.cpp:95-96 | after an empty token a connection gets nothing but busy denials |
| Pipeline.AlwaysInv | src/app.cpp:46-95 | what each point of onPaired, onUnpaired and the capture thread may rely on, in every interleaving |
| Pipeline.ExclusiveTeardown | src/app.cpp:46-95 | at most one capture thread, none during the resets, none and no encoder when one starts, and no frame discarded by the idle check |
| Pipeline.QuietAfterUnpaired | src/app.cpp:67-72 | when onUnpaired returns, every later frame comes from a capture that a later onPaired created |
| Pipeline.NoDeadlock | src/app.cpp:67-72 | while a call or capture thread is unfinished, an unfinished one can go on |
| Pipeline.JoinAdvances | src/display/dxgi_capture.cpp:51-61 | during the join the capture thread can always go on, and each of its steps is nearer to its end in a well-founded order |
| PipelineFrames.FrameIsSent | src/app.cpp:74-95 | between onCaptureFrame and the release of the frame, in every interleaving, exactly its NALs that pass sendFrame's first check are sent, to the client set, if the size is even and there is an encoder, and otherwise nothing |
| PipelineHistory.FramesReachTheirClient | src/app.cpp:46-65 | every frame went to the address passed to the onPaired that created its capture, in every interleaving |
| PipelineHistory.StreamingIsFold | src/app.cpp:46-72 | streaming is set only if an onPaired created a capture and no onUnpaired came since, with that client as endpoint; outside the critical section also conversely |
| PipelineHistory.CallsTakeEffect | src/app.cpp:46-72 | each caller's calls take effect once and in its order |
| HostSystem.StreamingNeedsSession | src/app.cpp:46-72 | at each line boundary, whatever the threads did and however often the tray quit, streaming implies that the gate is Paired with a non-empty token and that capture, endpoint and connection have one client |
| HostSystem.FramesNeedApproval | src/app.cpp:46-95 | at any moment, every frame went to a client that had been sent PAIR_ACCEPT with a non-empty token right before its onPaired |
| HostSystem.CanFollow | src/app.cpp:46-72 | the pipeline has a run for any sequence of calls of the control thread |
| CaptureThread.TurnIsWalk | src/display/dxgi_capture.cpp:61-106 | one turn of the loop is a walk of the pipeline's capture thread with the same callbacks, acquires and releases |
| CaptureThread.LoopIsWalk | src/display/dxgi_capture.cpp:56-108 | so is any run of the loop, for any behaviour of onCaptureFrame |
| Capture.DXGICapture.Loop | src/display/dxgi_capture.cpp:56-108 | the callbacks, acquires and releases of a run of the loop, with or without a staging texture from an earlier run |
| Capture.LogWellFormed | src/display/dxgi_capture.cpp:64-106 | onIdle and onResume alternate beginning with onIdle, no frame while idle, acquire and release strictly paired |
| Capture.AcquireRelease | src/display/dxgi_capture.cpp:61-106 | as many releases as successful acquires at the loop head |
| Capture.IdleExactlyWhenDue | src/display/dxgi_capture.cpp:66-72 | onIdle exactly on a timeout, once, after at least idleAfterMs without change |
| Capture.FrameTurn | src/display/dxgi_capture.cpp:77-106 | what a frame causes: onResume exactly if idle was said, delivery exactly if changed, staged and mapped, then the release |
| ColorConvert.StudioRange | src/encoder/color_convert.hpp:22-32 | Y in 16..235, U and V in 16..240, so clamp8 never acts |
| ColorConvert.GreyHasNoChroma | src/encoder/color_convert.hpp:31-32 | grey gives U = V = 128 |
| ColorConvert.LumaAccurate | src/encoder/color_convert.hpp:22 | less than one step from the exact value of section 2.5 of Recommendation ITU-R BT.601-7 |
| ColorConvert.UAccurate | src/encoder/color_convert.hpp:31 | the same for U |
| ColorConvert.VAccurate | src/encoder/color_convert.hpp:32 | the same for V |
| ColorConvert.YPlaneAt | src/encoder/color_convert.hpp:17-24 | every pixel has its own Y cell |
| ColorConvert.UVPlaneAt | src/encoder/color_convert.hpp:26-34 | every 2x2 block has one U and one V cell, of its top-left pixel |
| ColorConvert.YFromBytes | src/encoder/color_convert.hpp:17-24 | each Y cell is the rounded weighting of the blue, green and red bytes at 4 x in row y |
| ColorConvert.UVFromBytes | src/encoder/color_convert.hpp:26-34 | each U and V cell is that of the bytes of its block's top-left pixel |
| ColorConvert.BgraToNV12 | src/encoder/color_convert.hpp:13-35 | the loops write every cell of both planes exactly once, with these values, and nothing else in memory; every read is inside the source and no 32-bit product wraps |
| ColorConvert.Nv12Frame | src/app.cpp:86-89 | the two planes exactly tile the width * height * 3 / 2 buffer |

## Left out

- Win32, Winsock, DXGI, Direct3D and Media Foundation calls: foreign; their outcomes are inputs of the model. A datagram longer than the receive buffer is an error of recvfrom, as Winsock has it.
- JSON text, in `src/network/ctrl_protocol.hpp` and `src/config/config.cpp`: a line means an optional typed message; the constant codec field of CONFIG_ACK is not carried.
- `src/ui/tray.cpp`, `src/input/input_injector.cpp`, `src/display/vdd_manager.cpp`, `src/main.cpp`, and App's touch callback: user interface, injection and a stub.
- Starting, stopping and destroying the servers and the application: the model is the running system, with m_running set while a connection is served and all callbacks installed.
- `normalizedToAbsolute` and the hex encoder of `secureToken`: one float expression and one easy loop.
- `sameSubnet`: only `tests/test_ctrl.cpp` calls it. That is also the only caller of `parseIPv4`, which is modelled.
- The three stores of `setClientEndpoint` inside `Pipeline`: one step there, since readers hold the same mutex; `SenderSystem` has them one by one.
- InputReceiver.InputReceiver.Loop: a socket error and a datagram without bytes are the same to the loop, so both are just skipped datagrams.
- Reassembly.EndToEnd: bounded to frames of at most 65535 chunks and 2^32 numbered frames per run, because the header fields wrap beyond.
- SenderOrder.OrderedWithoutContention: for up to 2^32 numbered frames per run, because the id wraps beyond.
- ColorConvert.BgraToNV12: for even sizes with height * stride below 2^32, as the function's comment and its 32-bit offsets demand.
