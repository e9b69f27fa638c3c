# Verified models of xrdp-vnc-bench

This project models the algorithmic parts of xrdp-vnc-bench in Dafny and proves
what they promise. `dafny verify dfyconfig.toml` checks all of it.

| file | what it models |
|---|---|
| `Relay.dfy`, `RelayEnds.dfy`, `RelayRouting.dfy` | the bounded relay between a VNC client and its backend: every event, batch and run of the select loop |
| `Bytes.dfy`, `WebSocket.dfy` | WebSocket framing (RFC 6455, sections 5.2 and 5.3) over a socket that delivers in arbitrary pieces |
| `Cdp.dfy` | the SystemInfo request loop with its ping, pong and close handling (RFC 6455, section 5.5) |
| `IniText.dfy`, `IniFile.dfy` | Python's string operations on xrdp.ini, its sections and its entries |
| `XrdpConfig.dfy` | the private configuration of a benchmark run: rewrite and chansrv removal |
| `FixScripts.dfy`, `FixFrames.dfy`, `FixOrder.dfy` | the edits and guards of the two console fix scripts, what they leave alone, and both in either order |
| `LineReader.dfy`, `LogDelta.dfy` | the two incremental readers |
| `Nv12.dfy`, `Tiles.dfy`, `Grid.dfy` | colour conversion into a padded buffer, and the tiling of a frame |
| `ProcessTree.dfy`, `SyntheticNetwork.dfy`, `Percentile.dfy` | process descendants, the veth/netns transport, nearest-rank percentiles |

Each file has the same shape: a function gives the meaning of an operation, the
loops and objects of the source are methods proved to compute that function, and
lemmas state what holds for every input, run or environment. The environment
(what sockets, selects, files and commands answer) is always a parameter that the
theorems quantify over.

## Where the code does not do what it says

The models follow the code. Six promises hold only under a condition, and for
each the condition is proved to be the exact one.

- **Relay routing.** `update_interest` calls `selector.modify` without the data
  argument (src/python/rfb_v6_v4_proxy.py:52), and Python's selectors then store
  `None` as the key's data. From the second batch on, `pending[None]` raises
  KeyError at the first non-empty read, so the code as written delivers at most
  one read per direction. The model has both behaviours: `DataDropped` is the code
  as written, `DataKept` the routing that lines 69-70 set up. Safety is proved for
  both. `RelayRouting.AsWrittenAgreesExactly` says when the two agree.
- **Blocked sends.** The docstring (src/python/rfb_v6_v4_proxy.py:58-63) says that
  a send that would block waits for write readiness. The code sets `sent = 0` and
  then returns, which closes the pair (lines 102-107). The model closes, and
  `RelayEnds.BlockedSendEndsRelay` says which runs end this way.
- **Split frame headers.** `ws_recv` reads its two header bytes with one `recv`
  and reports a closed connection when only the first arrives.
  `WebSocket.ReceiveSends` and `Cdp.DeliveriesMatterExactly` say when that loses
  a message and when it changes an exchange.
- **Long pings.** A pong for a ping of more than 125 bytes is malformed
  (`Cdp.PongFaithfulExactly`), and one for more than 255 bytes raises ValueError.
- **Files without a final newline.** Both fix scripts append a setting to a
  section; if the file's last line has no newline and stays in that section, the
  setting is glued to it. The scripts' own validation then reports it, after the
  file has been replaced. `FixScripts.ResizingGuardExactly`,
  `FixScripts.GfxGuardExactly` and `FixOrder.BothScriptsInEitherOrder` say when.
- **Letters outside ASCII.** IGNORECASE takes four letters outside ASCII for i, s
  or k, and the guards do not, so the edits of the fix scripts also delete lines
  that no guard counts (`FixScripts.MatchesExactlyEntries`).

In addition, chroma is not rounded to nearest: C division truncates toward zero,
and `Nv12.Rounding` says for which pixels that makes a difference.

## Model

| member | source | states |
|---|---|---|
| Relay.RunIsSafe | src/python/rfb_v6_v4_proxy.py:57-114 | after any run, under either modify behaviour: both buffers are within 16 MiB, no byte is lost or reordered (at most the last read after an overflow or a lost route), write interest is armed exactly for non-empty buffers, keys route to the peer, and the work is paid for by bytes read |
| Relay.MidBatchIsSafe | src/python/rfb_v6_v4_proxy.py:72-111 | the same at every point inside a batch of possibly stale events |
| Relay.DeliveryIsInOrder | src/python/rfb_v6_v4_proxy.py:71-114 | per direction, sent plus pending is exactly what was read while open; after a close what was sent is a prefix of it |
| Relay.WriteEventFindsData | src/python/rfb_v6_v4_proxy.py:73-99 | a write event armed at the select still finds bytes to send, after all earlier events of the batch and its own read |
| RelayEnds.BlockedSendEndsRelay | src/python/rfb_v6_v4_proxy.py:97-107 | a run of batches that select can return ends with a stalled write if and only if some event is handled that is writable, whose read part leaves the relay open and whose send takes nothing |
| RelayEnds.EndsExactly | src/python/rfb_v6_v4_proxy.py:77-108 | a run has ended for a reason if and only if some event is handled, on an open relay, that is this reason: end of stream, a failed read, a lost route, data that would take the peer's buffer above 16 MiB, and after a read part without these a failed or blocked send of a non-empty buffer |
| RelayEnds.EventMoves | src/python/rfb_v6_v4_proxy.py:77-108 | any other event appends exactly the received bytes to the peer's buffer and moves exactly what the kernel has room for from the front of the own buffer |
| RelayEnds.StalledLosesBytes | src/python/rfb_v6_v4_proxy.py:97-107 | a run that ends this way has read bytes that it never sends |
| RelayRouting.AsWrittenAgreesExactly | src/python/rfb_v6_v4_proxy.py:45-54 | the code as written behaves as intended if and only if no event of a batch after the first non-empty one reads data from the open relay; otherwise it has ended with the lookup error |
| RelayRouting.SecondReadLosesRoute | src/python/rfb_v6_v4_proxy.py:52-89 | the concrete run: two reads in two batches lose the route |
| RelayRouting.AsWrittenRelaysOneRead | src/python/rfb_v6_v4_proxy.py:45-95 | as written, a whole connection sends at most 65536 bytes in each direction |
| Relay.WorkIsBounded | src/python/rfb_v6_v4_proxy.py:77-108 | with n bytes offered in all, at most n reads return data and at most n sends move data; queued bytes count against a joint bound of 2n |
| Relay.Connection.UpdateSocket | src/python/rfb_v6_v4_proxy.py:45-54 | re-registers one socket: write interest exactly when its buffer is non-empty, data kept or dropped by the policy |
| Relay.Connection.OnReadable | src/python/rfb_v6_v4_proxy.py:77-95 | the read part of an event, with every way it can end the relay |
| Relay.Connection.OnWritable | src/python/rfb_v6_v4_proxy.py:97-108 | the write part of an event |
| Relay.Connection.HandleEvent | src/python/rfb_v6_v4_proxy.py:74-111 | one event moves the buffers and registrations as the step function says, and reports why it ended |
| Relay.Connection.HandleBatch | src/python/rfb_v6_v4_proxy.py:73-111 | a batch is handled with the keys taken at the select, up to the event that ends the relay |
| Relay.Connection.RelayConnection | src/python/rfb_v6_v4_proxy.py:57-114 | the loop computes the run that the theorems are about, and closes both sockets when it ends |
| Relay.Connection.ClosePair | src/python/rfb_v6_v4_proxy.py:39-42 | both sockets are unregistered, the histories stay |
| Bytes.XorCancels | src/python/vscode_gpu_probe.py:109-111 | masking a byte twice restores it |
| Bytes.XorFlips | src/python/vscode_gpu_probe.py:92-111 | Xor is exclusive or: it keeps each binary digit and flips it where the mask has a one |
| Bytes.Digits | src/python/vscode_gpu_probe.py:92-111 | the binary digits of a byte make up its value |
| Bytes.UnpackPack | src/python/vscode_gpu_probe.py:89-105 | unpacking a packed big-endian number gives it back, for any width |
| Bytes.PackIsBigEndian | src/python/vscode_gpu_probe.py:89-91 | the fields of 2 and 8 bytes, most significant byte first |
| WebSocket.FrameRoundTrip | src/python/vscode_gpu_probe.py:83-112 | each frame ws_send can emit parses to opcode 1 and its payload, and the parser stops at its last byte, whatever follows |
| WebSocket.FrameOnTheWire | src/python/vscode_gpu_probe.py:83-92 | the bytes that ws_send sends, in each of the three length forms: 0x81, mask bit and length, the mask, and the payload with the bits of the mask flipped |
| WebSocket.ServerFrameParses | src/python/vscode_gpu_probe.py:95-112 | an unmasked frame with any first byte, any payload and any of the three length fields parses to the low four bits and the payload and leaves what follows |
| WebSocket.StreamRoundTrip | src/python/vscode_gpu_probe.py:83-112 | any number of frames with any payloads and masks, followed by any bytes: each payload once, in order, and nothing else consumed |
| WebSocket.ParseExtends | src/python/vscode_gpu_probe.py:95-112 | bytes arriving later never change how a complete frame parses |
| WebSocket.TruncatedFrameNeverParses | src/python/vscode_gpu_probe.py:95-122 | no proper prefix of an emitted frame is taken for a message |
| WebSocket.LengthFormIsMinimal | src/python/vscode_gpu_probe.py:86-91 | no masked byte string that parses to the payload is shorter than the emitted frame |
| WebSocket.WsSend | src/python/vscode_gpu_probe.py:83-92 | sends exactly the frame, and fails exactly for lengths of 2^64 and more |
| WebSocket.ParseInSteps | src/python/vscode_gpu_probe.py:95-112 | reading length field, mask and payload one after the other is cutting the frame out of the stream |
| WebSocket.WsRecv | src/python/vscode_gpu_probe.py:95-112 | for any stream and any delivery, it returns the parsed message and leaves the rest and the deliveries still to come, if and only if the stream starts with a complete frame and the header is not split |
| WebSocket.WsRecvMany | src/python/vscode_gpu_probe.py:95-112 | repeated calls succeed if and only if that many messages can be read, return these, and leave what follows them |
| WebSocket.ReceiveSends | src/python/vscode_gpu_probe.py:83-122 | as many ws_recv as there were ws_send, over any deliveries: all payloads in order with opcode 1 and nothing more consumed, if and only if no header of a frame is split |
| WebSocket.NoSinglesSplitNothing | src/python/vscode_gpu_probe.py:95-98 | deliveries of which none is a single byte split no header |
| WebSocket.ReadableExactly | src/python/vscode_gpu_probe.py:95-98 | what ws_recv returns until it raises is a prefix of the frames, and all of them exactly when no header of a complete frame is split |
| WebSocket.RecvExact | src/python/vscode_gpu_probe.py:115-122 | however the bytes arrive, exactly the first n are taken, or the stream was too short |
| WebSocket.Unmask | src/python/vscode_gpu_probe.py:108-111 | the in-place loop unmasks every byte |
| Cdp.FirstDecidingFrameSettles | src/python/vscode_gpu_probe.py:125-140 | the first close, decisive text or binary frame, or oversized ping alone settles the outcome; exactly the pings before it are echoed, once and in order |
| Cdp.PongFaithfulExactly | src/python/vscode_gpu_probe.py:129-131 | a pong parses to opcode 0xA and the ping's payload if and only if that has at most 125 bytes |
| Cdp.PongStreamRoundTrip | src/python/vscode_gpu_probe.py:129-131 | the concatenated pongs parse to one pong per ping, in order, with the same payloads |
| Cdp.ServerSeesRequestThenPongs | src/python/vscode_gpu_probe.py:125-131 | what the server reads back is the request and then one pong for each ping seen before the stop |
| Cdp.CdpSystemInfo | src/python/vscode_gpu_probe.py:125-140 | over a socket with any stream and any deliveries, the loop sends the request and the pongs, and ends with the outcome, of the exchange on the messages that can be read |
| Cdp.AnswerArrives | src/python/vscode_gpu_probe.py:125-140 | after any short pings (0x89) an unmasked text or binary frame (0x81, 0x82) of any size with the result is the answer, and each ping has been echoed, whatever follows |
| Cdp.CloseArrives | src/python/vscode_gpu_probe.py:132-133 | a close frame (0x88) in its place ends the exchange without an answer |
| Cdp.DeliveriesMatterExactly | src/python/vscode_gpu_probe.py:95-140 | the deliveries change the exchange if and only if a header is split before anything was decided and a ping or deciding frame is lost with it |
| Cdp.WholeDeliveries | src/python/vscode_gpu_probe.py:95-140 | without single-byte deliveries the exchange is that of all frames |
| Cdp.SplitHeaderLosesAnswer | src/python/vscode_gpu_probe.py:95-140 | an answer that has arrived is reported as a closed connection when its first byte comes alone |
| Cdp.Turn | src/python/vscode_gpu_probe.py:127-140 | one turn either settles the exchange or leaves the rest of it to the remaining messages |
| IniText.StripPad | src/python/xrdp_vnc_bench.py:572-575 | strip removes exactly the surrounding white space |
| IniText.SplitAtFirstEq | src/python/xrdp_vnc_bench.py:575-576 | split at the first equals sign gives back key and value, whatever the value contains |
| IniText.SplitOfJoin | src/python/xrdp_vnc_bench.py:626-638 | a file written by joining lines reads back as those lines |
| IniText.SplitAfterConcat | scripts/fix-console-gfx-black-screen.sh:63-97 | joining lines with their endings and splitting again gives them back |
| IniText.LowerIdentifiesCase | src/python/xrdp_vnc_bench.py:598-616 | lowered texts are equal exactly when the texts differ only in the case of ASCII letters |
| IniText.SpacesInFull | src/python/xrdp_vnc_bench.py:572-575 | which characters strip removes, all 29 of them, and which end a line |
| IniText.TranslateEndings | src/python/xrdp_vnc_bench.py:529 | each of the three line endings is read as one newline |
| IniFile.FindsTheSplit | src/python/xrdp_vnc_bench.py:583-593 | the section lookup finds the unique first section of a name: any parts that fit are the ones found |
| IniFile.BracketsMakeHeader | src/python/xrdp_vnc_bench.py:571-574 | a name in brackets, with any white space around it, is the header of that section |
| IniFile.CommentExactly | src/python/xrdp_vnc_bench.py:575 | a line with an equals sign is an entry unless its first visible character is a number sign or a semicolon |
| IniFile.SettingReads | src/python/xrdp_vnc_bench.py:575-576 | key, without white space, and value of a line that is written out |
| IniFile.SettingUnderHeader | src/python/xrdp_vnc_bench.py:571-579 | a header and a setting below it make exactly one entry |
| IniFile.FindParts | src/python/xrdp_vnc_bench.py:583-593 | the lookup fails exactly when no line names the section, and otherwise cuts the lines at its first header, before the next header, and loses none |
| IniFile.SectionStart | src/python/xrdp_vnc_bench.py:583-586 | the index search stops at the first line that names the section |
| IniFile.SectionEnd | src/python/xrdp_vnc_bench.py:589-593 | the index search stops at the next header of any name, or at the end |
| IniFile.EntriesConcat | src/python/xrdp_vnc_bench.py:571-579 | entries of a concatenation, with the section carried across |
| IniFile.AssignReads | src/python/xrdp_vnc_bench.py:571-579 | a written setting reads back as an active entry with its key and value, and is no header |
| XrdpConfig.ReplacementsAreUsable | src/python/xrdp_vnc_bench.py:533-567 | the required entries have plain keys that no later step touches |
| XrdpConfig.ReplacementsAreItems | src/python/xrdp_vnc_bench.py:533-567 | no listed setting overrides another: the required entries are exactly the listed pairs |
| XrdpConfig.PassEntries | src/python/xrdp_vnc_bench.py:568-579 | the pass sets every required entry, in every section of its name, and leaves the values of all others |
| XrdpConfig.PassOfSplit | src/python/xrdp_vnc_bench.py:568-593 | the pass moves no section boundary: it commutes with finding [Console] |
| XrdpConfig.SucceedsExactly | src/python/xrdp_vnc_bench.py:527-588 | the rewrite fails if and only if both GFX flags are set or a required entry is absent; a missing [Console] cannot be the only reason |
| XrdpConfig.FailsForReason | src/python/xrdp_vnc_bench.py:527-588 | with which error it fails: clashing flags first, then an absent entry, and never a missing [Console] |
| XrdpConfig.RequiredEntriesAreSet | src/python/xrdp_vnc_bench.py:533-626 | after a rewrite every required (section, key) is present, as often as before, and always with the requested value |
| XrdpConfig.GlobalSettingsTakeEffect | src/python/xrdp_vnc_bench.py:533-540 | each entry of [Globals] that is always required, with its key and value written out |
| XrdpConfig.ConsoleSettingsTakeEffect | src/python/xrdp_vnc_bench.py:549-561 | the same for [Console], where channel.drdynvc is "false" exactly when GFX is disabled |
| XrdpConfig.OtherSettingsTakeEffect | src/python/xrdp_vnc_bench.py:541-548 | the same for [Logging] and the global drdynvc policy of [Channels] |
| XrdpConfig.CompressionTakesEffect | src/python/xrdp_vnc_bench.py:562-567 | both compression entries are "true" or "false" as chosen, and left alone when nothing is chosen |
| XrdpConfig.OtherEntriesAreKept | src/python/xrdp_vnc_bench.py:568-626 | every other entry keeps its values in order, but for the two Console keys |
| XrdpConfig.FirstConsoleOnly | src/python/xrdp_vnc_bench.py:583-625 | only the first [Console] is edited: with a GFX flag no active disable_gfx is left there, and enable_dynamic_resizing=false is appended exactly when asked for and absent |
| XrdpConfig.RewriteIsIdempotent | src/python/xrdp_vnc_bench.py:568-626 | a second rewrite with the same settings succeeds and gives the same lines |
| XrdpConfig.RewriteFileIsIdempotent | src/python/xrdp_vnc_bench.py:529-626 | the same on file contents, if no setting contains a line break |
| XrdpConfig.RemovalEntries | src/python/xrdp_vnc_bench.py:630-650 | no [Console] section keeps an active entry for the three chansrv keys in any letter case; every other entry of every section is kept |
| XrdpConfig.RemovalIsIdempotent | src/python/xrdp_vnc_bench.py:638-649 | removing twice is removing once |
| XrdpConfig.RemoveFromFileIsIdempotent | src/python/xrdp_vnc_bench.py:630-650 | the same on file contents, also when nothing is left |
| XrdpConfig.RemovalAfterRewrite | src/python/xrdp_vnc_bench.py:543-650 | after rewrite and removal the Console channel entries are gone and the other required entries, such as the global drdynvc policy, keep their values |
| XrdpConfig.RemovalInFull | src/python/xrdp_vnc_bench.py:543-650 | the same with sections, keys and values written out |
| XrdpConfig.ReplacementPass | src/python/xrdp_vnc_bench.py:530-579 | the loop computes the pass and records exactly the required entries it met |
| XrdpConfig.KeptIsSplit | src/python/xrdp_vnc_bench.py:594-601 | the filter over all lines with an index test removes the key from the section body and nothing else |
| XrdpConfig.DropBetween | src/python/xrdp_vnc_bench.py:594-601 | the loop of the filter keeps exactly what the comprehension keeps |
| XrdpConfig.RewriteXrdpConfig | src/python/xrdp_vnc_bench.py:516-626 | the whole function, which searches the section's indices again after each step, computes the rewrite the theorems are about |
| XrdpConfig.RemoveChansrvFromConfig | src/python/xrdp_vnc_bench.py:638-649 | the loop computes the removal |
| FixScripts.MatchesExactlyEntries | scripts/fix-console-gfx-black-screen.sh:34-76 | the regular expression matches a line that the guards' parser does not count if and only if its key is spelt with one of four letters outside ASCII, and all that are counted |
| FixScripts.ForeignSpelling | scripts/fix-console-gfx-black-screen.sh:74-76 | concrete lines that the edit deletes and no guard counts |
| FixScripts.EditOwnSection | scripts/fix-console-gfx-black-screen.sh:65-92 | an edit leaves one "false" for its key, or none, and the values of every other ASCII key of the section |
| FixScripts.EditOtherSection | scripts/fix-console-gfx-black-screen.sh:65-92 | an edit leaves header and body of the first section of any other name, and whether that section is the last |
| FixScripts.GuardReadsKept | scripts/fix-console-gfx-black-screen.sh:25-37 | reading lines with or without their endings makes no difference to a guard |
| FixScripts.GuardReadsSetting | scripts/fix-console-gfx-black-screen.sh:34-37 | what the guards read of a line that is written out: white space and letter case do not matter, a comment sign hides it |
| FixScripts.GuardAfterReplace | scripts/fix-console-gfx-black-screen.sh:65-97 | after one replace_key and a write, the guard's parser sees no entry if the setting was glued, and otherwise what the edit made |
| FixScripts.ResizingGuardExactly | scripts/fix-console-dynamic-resizing.sh:23-108 | the script refuses exactly the files without [Console]; its guard accepts the file it wrote if and only if nothing was glued |
| FixScripts.GfxGuardExactly | scripts/fix-console-gfx-black-screen.sh:25-131 | the script refuses exactly the files that lack a section; its guard accepts the file it wrote if and only if nothing was glued |
| FixScripts.LoneHeaderIsGlued | scripts/fix-console-dynamic-resizing.sh:53-108 | on a file that is only the header [Console] without a newline the script writes a file its guard rejects |
| FixScripts.LoneHeadersAreGlued | scripts/fix-console-gfx-black-screen.sh:63-131 | so does the GFX script on a file that is only its two headers |
| FixScripts.GfxKeepsOtherSections | scripts/fix-console-gfx-black-screen.sh:65-97 | the first section of every other name keeps its header and body |
| FixFrames.GfxKeepsOtherLines | scripts/fix-console-gfx-black-screen.sh:65-97 | the three edits keep every line, in order, outside the bodies of the first [Channels] and the first [Console] |
| FixFrames.GfxKeepsOtherEntries | scripts/fix-console-gfx-black-screen.sh:65-97 | they keep every entry of every section of another name |
| FixFrames.GfxKeepsFile | scripts/fix-console-gfx-black-screen.sh:63-110 | in the written file these lines are as they were if and only if the file does not end in the header of one of the two sections without a newline |
| FixFrames.ResizingKeepsOtherLines | scripts/fix-console-dynamic-resizing.sh:53-90 | the same for the resizing script and the first [Console] |
| FixOrder.BothScriptsInEitherOrder | scripts/fix-console-dynamic-resizing.sh:23-76 | both scripts, in either order, each left out when its guard already accepts, satisfy both guards on every file with both sections that ends in a newline; on other files, for each order, the exact condition on the input |
| FixOrder.GfxLeavesNoGlue | scripts/fix-console-gfx-black-screen.sh:63-97 | after the GFX edit nothing can be glued at the end of the first [Console] |
| FixOrder.GfxKeepsResizingGuard | scripts/fix-console-gfx-black-screen.sh:63-97 | the GFX edit that glues nothing leaves the other script's guard as it was |
| FixScripts.EditConsole | scripts/fix-console-dynamic-resizing.sh:57-75 | the index loops and the filter compute the edit |
| FixScripts.FilterLines | scripts/fix-console-dynamic-resizing.sh:71-73 | the filter without a comment test drops the same lines as the one with it |
| FixScripts.GfxEditor.Replace | scripts/fix-console-gfx-black-screen.sh:65-78 | rebinds the lines to the edited ones, or refuses and leaves them |
| FixScripts.GfxEditor.Remove | scripts/fix-console-gfx-black-screen.sh:80-92 | the same for remove_key |
| FixScripts.GfxEditor.Run | scripts/fix-console-gfx-black-screen.sh:94-96 | the three calls compute the edit the theorems are about |
| LineReader.SplitsBack | src/python/xrdp_vnc_bench.py:132-136 | splitting at newlines is unique: lines followed by a rest are found again |
| LineReader.NothingIsLost | src/python/xrdp_vnc_bench.py:120-146 | for any chunking, timeouts and number of calls, the returned lines followed by the buffer are all bytes read, and every line has one newline, at its end |
| LineReader.ReaderSplitsAtNewlines | src/python/xrdp_vnc_bench.py:127-146 | the lines are the first complete lines of the stream, and all of them after a call that found none |
| LineReader.QuietCallReturns | src/python/xrdp_vnc_bench.py:127-146 | after polls without a newline, the deadline returns nothing and keeps all bytes, and an empty read returns the tail |
| LineReader.NewlineEndsCall | src/python/xrdp_vnc_bench.py:127-146 | a chunk with a newline completes the line up to it and leaves what is behind it |
| LineReader.BufferedLineFirst | src/python/xrdp_vnc_bench.py:132-136 | a line that is already in the buffer is returned without a read |
| LineReader.TailIsRepeated | src/python/xrdp_vnc_bench.py:143-145 | at the end of the stream the tail is returned again by every further call |
| LineReader.Reader.Next | src/python/xrdp_vnc_bench.py:127-146 | the method returns what the specification returns for these answers and keeps its buffer |
| LogDelta.GreedyIsOptimal | src/python/xrdp_console_episode_sampler.py:300-306 | no choice of non-overlapping occurrences has more than the left-to-right count |
| LogDelta.GreedyIsPacking | src/python/xrdp_console_episode_sampler.py:300-306 | the count is the size of an actual choice of non-overlapping occurrences |
| LogDelta.CountOfHalves | src/python/xrdp_console_episode_sampler.py:293-306 | cutting a text loses at most one occurrence and invents none |
| LogDelta.NonEmptyCounts | src/python/xrdp_console_episode_sampler.py:293-298 | the number of samples that found bytes, which bounds what counting can miss |
| LogDelta.ChunksHaveNoGaps | src/python/xrdp_console_episode_sampler.py:280-298 | on an append-only log, with any failing calls, the chunks are consecutive and together are the log between the offsets |
| LogDelta.SamplesCountTheLog | src/python/xrdp_console_episode_sampler.py:280-307 | for every marker the sums never exceed the count in the part read, and miss fewer than the number of non-empty chunks |
| LogDelta.CountersCountTheLog | src/python/xrdp_console_episode_sampler.py:280-307 | the same for each of the five counters that sample returns, with its own marker written out |
| LogDelta.SampleReadsOn | src/python/xrdp_console_episode_sampler.py:293-298 | a sample reads to the end of the file, or 1 MiB if more is left |
| LogDelta.MarkerAcrossBoundary | src/python/xrdp_console_episode_sampler.py:280-307 | the bound is reached: a marker written across two samples is missed |
| LogDelta.TruncationRestarts | src/python/xrdp_console_episode_sampler.py:289-307 | when a log that grew is found shorter than the offset and then grows again, the chunks are the part of the old file up to there and then the new file from its first byte, without gaps, and the sums miss at most the boundaries inside the two |
| LogDelta.LogReader.TakeSample | src/python/xrdp_console_episode_sampler.py:280-307 | the method moves the offset and counts as specified, whichever call fails |
| Nv12.LumaRange | src/c/xrdp_codec_bench.c:60-61 | luma is within 16 to 235, so its conversion to uint8_t does not wrap |
| Nv12.ChromaURange | src/c/xrdp_codec_bench.c:64-65 | U is within 17 to 240 and does not wrap |
| Nv12.ChromaVRange | src/c/xrdp_codec_bench.c:66-67 | V is within 17 to 240 and does not wrap |
| Nv12.Rounding | src/c/xrdp_codec_bench.c:60-67 | luma is rounded to nearest for every pixel; chroma exactly when its weighted sum is at least -128 or divides evenly |
| Nv12.OnePixelMore | src/c/xrdp_codec_bench.c:54-69 | a pixel writes only its own cells and none that an earlier pixel wrote |
| Nv12.LumaPlane | src/c/xrdp_codec_bench.c:49-61 | cell (y, x) of the luma plane is the luma of pixel (y, x), or 16 in the padding |
| Nv12.ChromaPlane | src/c/xrdp_codec_bench.c:51-68 | the two cells of a block are U and V of its top left pixel, or 128 in the padding |
| Nv12.LumaInFull | src/c/xrdp_codec_bench.c:54-61 | each luma cell as a formula of the blue, green and red bytes of its pixel, with both indices as products |
| Nv12.ChromaInFull | src/c/xrdp_codec_bench.c:62-68 | the same for the two chroma cells of a block |
| Nv12.BgraToNv12 | src/c/xrdp_codec_bench.c:47-71 | for every frame of positive width and even height the loops stay in bounds and fill the buffer with exactly these cells |
| Nv12.ConvertPixel | src/c/xrdp_codec_bench.c:60-68 | the loop body advances the buffer by one pixel and leaves all other cells |
| Tiles.PixelInOneTile | src/c/xrdp_codec_bench.c:82-93 | every pixel of the frame lies in exactly one tile |
| Tiles.TilesFit | src/c/xrdp_codec_bench.c:84-88 | every tile is 1 to 64 pixels on each side and inside the frame |
| Tiles.TilesInFull | src/c/xrdp_codec_bench.c:82-93 | the tiles row by row with their place and size written out: 64 pixels each way or what is left |
| Tiles.AreasAddUp | src/c/xrdp_codec_bench.c:82-93 | the areas of the tiles add up to width times height |
| Tiles.MakeTiles | src/c/xrdp_codec_bench.c:73-97 | the loops build exactly this tiling, unless the allocation fails |
| Grid.RowAndColumn | src/c/xrdp_codec_bench.c:60-63 | a flat index determines its row and column |
| ProcessTree.ProcessTreePids | src/python/xrdp_vnc_bench.py:176-195 | terminates and returns exactly the processes that some chain of parent links reaches from the root, for any snapshot, cyclic or not |
| ProcessTree.CollectChildren | src/python/xrdp_vnc_bench.py:178-186 | the map lists exactly the children in the readable entries |
| ProcessTree.ClosedHoldsDescendants | src/python/xrdp_vnc_bench.py:189-195 | a set closed under children holds every descendant of its members |
| SyntheticNetwork.ArgumentsConfigure | src/python/xrdp_vnc_bench.py:409-418 | the tc arguments carry every impairment parameter, whichever are zero |
| SyntheticNetwork.ArgumentOrder | src/python/xrdp_vnc_bench.py:409-418 | the jitter, which has no keyword of its own, directly follows the delay, and no parameter is given twice |
| SyntheticNetwork.RollbackFromAnywhere | src/python/xrdp_vnc_bench.py:383-479 | from wherever the setup stops, cleanup brings back exactly the initial links and namespaces, and running it again changes nothing |
| SyntheticNetwork.RollbackFromInterrupt | src/python/xrdp_vnc_bench.py:383-479 | the same for an interrupt between any two commands |
| SyntheticNetwork.SetupMakesReady | src/python/xrdp_vnc_bench.py:384-422 | without faults the setup succeeds, and a setup that succeeds leaves both ends addressed, up and with the same requested netem parameters |
| SyntheticNetwork.Network.Setup | src/python/xrdp_vnc_bench.py:370-400 | succeeds exactly when the sudo probe and every command do; a setup that raises leaves the kernel as it was |
| SyntheticNetwork.Network.Cleanup | src/python/xrdp_vnc_bench.py:470-479 | deletes what is there, ignores what is not, and forgets the namespace |
| Percentile.NearestRank | src/python/xrdp_vnc_bench.py:856-862 | for 0 < f <= 1 the result is a value of the list with at least n*f values at or below it, and the least such value |
| Percentile.OrderDoesNotMatter | src/python/xrdp_vnc_bench.py:860-862 | the result depends only on the collection of values |
| Percentile.MonotoneInFraction | src/python/xrdp_vnc_bench.py:861-862 | a larger fraction never gives a smaller value |
| Percentile.TimesIsProduct | src/python/xrdp_vnc_bench.py:861 | the recursive product used in the statements is multiplication |

## Left out

- The accept loop of the proxy: an error that escapes one relay, such as the lost
  route, also ends the loop that accepts further connections.
- Full delivery when a relay closes: pending bytes are dropped by design, so only
  the prefix property is claimed.
- WebSocket.Recv timeouts: a socket delivers, or has ended; timeouts raise
  exceptions that end the exchange.
- The WebSocket handshake, JSON text and fragmented messages; what JSON parsing
  makes of a payload is a parameter of the exchange.
- Unicode case mapping: `Lower` changes ASCII letters only. The code compares
  lowered text with ASCII words that contain no k, and for these str.lower makes no
  difference. IGNORECASE, white space and line breaks are Python's.
- Text encodings: files are sequences of characters after decoding. `LogDelta`
  works on the bytes; its markers are ASCII, and decoding with replacement keeps
  every ASCII byte.
- Which entry a failing rewrite names, file modes, and the backup and restart
  steps of the fix scripts.
- Forcing enable_dynamic_resizing to false in the rewrite: an existing entry is
  left as it is, so only presence is claimed.
- Log rotation to a file that is already at least as long as the old offset, which
  the reader cannot detect.
- Clocks in `LineReader`: when the deadline passes is part of the environment.
- The `ss` text parser, which scrapes text by regular expressions.
- Floating point: percentiles and netem parameters are real numbers, formatting of
  numbers for the command line is not modelled.
- Partial effects of a failing `ip` or `tc` command, and deletes that fail although
  the object exists.
- The codec calls, timing and memory of the codec benchmark, and the C probes and
  stimuli.
