# theta-stream viewers in Dafny

A model of the deterministic core of the two THETA live-stream viewers,
`gst/gst_viewer.cpp` (C++) and `gst/gst_viewer.c` (C). Both programs capture
H.264 frames from a RICOH THETA over libuvc and push them into a GStreamer
graph whose head is `appsrc name=ap ! queue  ! h264parse !` and whose tail,
the *pipeline suffix*, is chosen at start-up.

The model covers:

- **Options** (`options.dfy`): the C++ command line. `ParseCommandLine`
  follows the option loop and the checks after it statement by statement.
  `Resolve` states the same outcome declaratively, field by field: the last
  `-a` before the stopping option wins, a `-s udp` anywhere before it sets
  the port, and so on. Option k is `argv[2k+1]`, because every option
  swallows the next entry as its value.
- **OptionProperties** (`options_properties.dfy`): what the resolver
  guarantees, and concrete command lines with their exact suffixes.
- **GraphDescription** (`graph_description.dfy`): the `snprintf`ed graph
  description. It is truncated to 1023 characters and carries the ingress
  caps.
- **Sample** and **FrameBridge** (`sample.dfy`, `frame_bridge.dfy`): the
  capture callback `cb`. It computes timestamps in unsigned 32-bit
  arithmetic, copies the payload, counts the frame and pushes once. The
  driver's serialized delivery of many frames is modelled too.
- **BusWatch** (`bus_watch.dfy`): the bus callback, and the main loop that
  returns at the first ERROR message or key press.
- **ProgramName** (`program_name.dfy`): the C viewer's choice of suffix by
  the file name it was started under.
- **Lifecycle** and **LifecycleProperties** (`lifecycle.dfy`,
  `lifecycle_properties.dfy`): `main` of both viewers as a trace of foreign
  calls. A `Variant` parameter selects the viewer. They differ in two
  places: only the C viewer has the `-l` listing, and after a failed device
  search only the C viewer closes the libuvc context. `Replay` interprets a
  trace over the resources held: GStreamer, main loop, graph, bus watch,
  libuvc context, device list, found device, device handle, key-wait
  thread, whether the stream control `ctrl` was filled in, and streaming.
  It fails on any use of an absent or released resource. Every call whose result
  `main` inspects carries that result in its event, and the results come
  from an `Outcomes` record, so one record is one path through `main`.

Foreign code is not modelled, only its results:

- GStreamer, libuvc, `thetauvc_*` and pthreads are reduced to their
  results (`Outcomes`), the frames they deliver (`Frame`), the flow return
  of a push (`FlowReturn`), and the inputs the main loop dispatches
  (`Input`).
- Strings are sequences of characters that stand for the bytes of C
  strings.

## Model

| member | source | states |
|---|---|---|
| Options.ParseCommandLine | gst/gst_viewer.cpp:246-379 | The option loop followed by the checks and the assembly yields exactly the declarative resolution of the command line. |
| Options.ReadOptions | gst/gst_viewer.cpp:246-321 | The loop as written (return on `-h` and on every invalid option, break after a valid `-p`) produces exactly `ScanOptions`: where the loop stops, the settings the earlier options left, and the outcome. |
| Options.ReadOptionAgrees | gst/gst_viewer.cpp:254-320 | One pass of the loop body goes on to the next option exactly when that option continues, and then holds the settings of one more option; otherwise it gives the declared exit or profile. |
| Options.StopIndex | gst/gst_viewer.cpp:246-321 | The loop stops at the first option that is `-h`, unknown, `-p` or a `-s` with an unknown protocol. Every option before it continues the loop. |
| Options.LastIsLastSelected | gst/gst_viewer.cpp:258-314 | A field's value is that of a selecting option with no selecting option after it, and it is unset exactly when no option selects it. |
| Options.LastSource | gst/gst_viewer.cpp:258-314 | The value a field ends up with is that of one option that sets it, and no later option sets that field. |
| Options.LastStep | gst/gst_viewer.cpp:258-314 | An option either supplies a field's new value or leaves the field as it was. |
| Options.ValueOptionStep | gst/gst_viewer.cpp:258-259 | `-a` replaces only the address, and `-P` replaces only the custom pipeline. |
| Options.StreamOptionStep | gst/gst_viewer.cpp:261-282 | Each protocol sets the sink name, and for rtsp/udp/v4l2 also the address requirement and the address property. Only udp sets `port=5000`. `auto` touches nothing else. |
| Options.StopsAt | gst/gst_viewer.cpp:284-311 | When option k ends the loop, the outcome is either the profile applied to the settings so far or the matching early exit. |
| Options.ApplyProfile | gst/gst_viewer.cpp:284-311 | A profile always marks itself as given and names a sink. It never touches the address requirement, the port or the custom pipeline. |
| Options.Finish | gst/gst_viewer.cpp:323-379 | A non-empty custom pipeline is the suffix verbatim. Otherwise a suffix is produced exactly when both required-argument checks pass. Help is never produced here. |
| Options.EarlyExit | gst/gst_viewer.cpp:254-320 | An option that ends the program inside the loop gives Help exactly when it is `-h`/`--help`. |
| Options.ExitCode | gst/gst_viewer.cpp:224-230 | Help exits with 0 and every invalid command line exits with 1. |
| OptionProperties.StopOptionDecides | gst/gst_viewer.cpp:254-320 | `-h` gives Help, an unknown protocol, profile or option gives the matching failure, and nothing after the stopping option is read. |
| OptionProperties.HelpIff | gst/gst_viewer.cpp:254-256 | Help is the outcome exactly when some `-h` is reached with every earlier option continuing. An `-h` swallowed as a value does not count. |
| OptionProperties.DefaultsUnreachable | gst/gst_viewer.cpp:329-358 | Whenever the checks pass, a sink is named and either has an address or is `autovideosink`, so neither default block changes anything. |
| OptionProperties.ViewerProfileSuffix | gst/gst_viewer.cpp:292-296 | `-p viewer` alone resolves to ` queue ! decodebin ! autovideosink sync=false`, leading space included. |
| OptionProperties.UdpStreamSuffix | gst/gst_viewer.cpp:268-272 | `-s udp -a H`, in either order, resolves to ` udpsink host=H port=5000`. |
| OptionProperties.StreamAddrCommute | gst/gst_viewer.cpp:258-282 | Swapping adjacent `-s P` and `-a H` anywhere in any command line never changes the outcome. |
| OptionProperties.SwappedUnknownProtocol | gst/gst_viewer.cpp:261-282 | When `-s` names an unknown protocol, both orders of the adjacent pair end the loop with the same result: at an earlier option they share, or with that protocol's error. |
| OptionProperties.ViewerKeepsEarlierAddress | gst/gst_viewer.cpp:292-296 | `-s udp -a H -p viewer` gives ` queue ! decodebin ! autovideosink host=H port=5000 sync=false`: the viewer profile keeps an earlier address and port. |
| OptionProperties.NeedsAddrNeverReset | gst/gst_viewer.cpp:262-275 | `-s udp -s auto` still demands an address for `autovideosink`. |
| OptionProperties.OptionSwallowsHelp | gst/gst_viewer.cpp:250-252 | `-a -h` takes `-h` as the address (and then misses a sink). `-x -h` fails on the unknown `-x`. |
| OptionProperties.CustomPipelineVerbatim | gst/gst_viewer.cpp:323-326 | A non-empty `-P` value that is the last option, or is directly followed by a valid `-p`, is the suffix verbatim after any prefix of continuing options. A later `-P` would replace it (gst/gst_viewer.cpp:259); ResolveCustom states the general case. |
| OptionProperties.ResolveCustom | gst/gst_viewer.cpp:323-326 | When the loop runs out of options or stops at a valid profile with a custom pipeline set, that pipeline is the result. |
| OptionProperties.ProfileAfterPrefix | gst/gst_viewer.cpp:284-311 | A valid profile after continuing options completes the loop with the profile applied to those options' settings. |
| GraphDescription.Describe | gst/gst_viewer.cpp:121-122 | The description has at most 1023 characters. It is a prefix of ingress prefix + suffix + space, and is either all of it or exactly 1023 characters. The C viewer (gst/gst_viewer.c:118) formats the same description. |
| GraphDescription.DescribeKeepsIngress | gst/gst_viewer.cpp:121-137 | Truncation never reaches the 38-character ingress prefix, so the element `ap` looked up afterwards is always in the description. |
| GraphDescription.SuffixIntactIff | gst/gst_viewer.cpp:121-122 | The suffix survives unchanged exactly when it has at most 984 characters. |
| Sample.Pts | gst/gst_viewer.cpp:188 | The timestamp is sequence × interval × 100 reduced modulo 2^32. |
| Sample.BuildSample | gst/gst_viewer.cpp:187-196 | The buffer's PTS is the wrapped product, DTS is none, duration is the wrapped interval × 100, and offset is the sequence number. The payload is exactly the first `data_bytes` bytes of the frame. The C callback (gst/gst_viewer.c:183-192) builds the same buffer. |
| Sample.PtsExact | gst/gst_viewer.cpp:188 | Without overflow, the timestamp is the exact product in nanoseconds. |
| Sample.PtsAdvancesByDuration | gst/gst_viewer.cpp:188-190 | Without overflow, consecutive frames are exactly one duration apart. |
| Sample.PtsGap | gst/gst_viewer.cpp:188-191 | Without overflow, a gap of g sequence numbers advances the timestamp by g durations. |
| Sample.PtsStrictlyIncreasing | gst/gst_viewer.cpp:188 | Without overflow and with a positive interval, timestamps strictly increase with the sequence number. |
| Sample.PtsWrapsAfter128Frames | gst/gst_viewer.cpp:57 | At the 29.97 fps interval 333667, frame 129 is stamped earlier than frame 128, because the 32-bit product wraps. |
| FrameBridge.OnFrame | gst/gst_viewer.cpp:176-205 | One callback appends exactly one buffer, built from the frame, and advances the counter by one modulo 2^32. It writes the `pushbuffer errorn` line only when the push is refused. |
| FrameBridge.RefusalOnlyLogs | gst/gst_viewer.cpp:198-203 | A refused push differs from an accepted one only in the log: same buffer, same counter, no retry. |
| FrameBridge.Session | gst/gst_viewer.cpp:176-205 | With the counter reset to 0 before the device search (gst/gst_viewer.cpp:423), a whole stream pushes exactly one buffer per frame, in order. The counter ends at the frame count modulo 2^32, which is the frame count itself below 2^32, and one log line is written per refused push. |
| FrameBridge.Deliver | gst/gst_viewer.cpp:176-205 | Delivering n frames pushes their buffers once each, in order, advances the counter by n modulo 2^32, and logs one line per refused push. |
| BusWatch.BusCallback | gst/gst_viewer.cpp:72-94 | Quit is requested exactly for ERROR messages, with the error text and the debug text or `none` logged. The watch is always kept. The C callback (gst/gst_viewer.c:70-93) is the same filter. |
| BusWatch.EndOfStreamKeepsRunning | gst/gst_viewer.cpp:89-93 | End of stream does not end the main loop. |
| BusWatch.RunLoop | gst/gst_viewer.cpp:456 | The loop returns exactly when some input is a key press or a bus error. It dispatches up to and including the first such input, and its log is that input's. |
| BusWatch.FirstQuit | gst/gst_viewer.cpp:456 | The index of the first input that ends the loop: none before it does. |
| BusWatch.FirstQuitWins | gst/gst_viewer.cpp:162-165 | Whichever of a key press and a bus error arrives first ends the loop; later inputs are never reached. |
| ProgramName.CommandName | gst/gst_viewer.c:220-224 | The command name has no '/'. It is a tail of `argv[0]` that is either all of `argv[0]` or preceded by a '/'. |
| ProgramName.CommandNameOfPath | gst/gst_viewer.c:220-224 | A file name under any directory prefix is recognised as the command name. |
| ProgramName.PipelineFor | gst/gst_viewer.c:232-235 | The loopback suffix is chosen exactly when the command name is `gst_loopback`, and the display suffix otherwise. |
| ProgramName.LoopbackByName | gst/gst_viewer.c:220-235 | `gst_loopback`, run in place or from a directory, selects the loopback suffix. |
| ProgramName.ViewerByName | gst/gst_viewer.c:220-235 | A directory named `gst_loopback` or a longer file name selects the display suffix. |
| ProgramName.ViewerSuffixMatchesProfile | gst/gst_viewer.c:235 | The C display suffix is exactly the C++ viewer's `-p viewer` suffix. |
| ProgramName.BuiltInSuffixesIntact | gst/gst_viewer.c:118 | Both built-in suffixes reach the graph description untruncated. |
| Lifecycle.GraphSetup | gst/gst_viewer.cpp:125-148 | `gst_src_init` initialises GStreamer, creates the loop and parses the formatted description. Only on success does it set the clock, fetch the ingress, set the H.264 caps and add the bus watch. |
| Lifecycle.ListFromFacts | gst/gst_viewer.c:255-268 | The `-l` loop ends exactly when every descriptor can be read, and it acquires or releases nothing. |
| Lifecycle.CppMain | gst/gst_viewer.cpp:246-415 | Help exits 0 and an invalid command line exits 1, both before any call is made. Otherwise the resolved suffix is launched. |
| Lifecycle.CMain | gst/gst_viewer.c:220-239 | The C viewer has no argument errors: it always starts by parsing the description for its own name's suffix. |
| Lifecycle.Launch | gst/gst_viewer.cpp:413-471 | `main` of either viewer once the suffix is known (the C viewer's is gst/gst_viewer.c:238-318): the trace starts with `gst_src_init`'s calls and parses the formatted description. By LaunchHolds, replaying its trace never fails and ends in exactly the state of the reference table. |
| LifecycleProperties.SetupReplay | gst/gst_viewer.cpp:125-148 | After `gst_src_init`, GStreamer and the loop are held; so are the graph (in NULL state) and the bus watch exactly when parsing succeeded. |
| LifecycleProperties.LaunchHolds | gst/gst_viewer.cpp:413-471 | Every path of either viewer is safe, and what it holds at the end matches an independently written table, one row per path. |
| LifecycleProperties.LaunchSafe | gst/gst_viewer.c:238-318 | No path uses an absent or released resource or releases one twice. |
| LifecycleProperties.CompletedSessionReleasesAll | gst/gst_viewer.c:298-318 | A session ended by a key press or a bus error exits 0. It runs stop streaming, graph to NULL, remove watch, unref loop, cancel and join thread, close, exit, in that order, and releases the stream, the handle, the context, the watch, the loop and the thread. GStreamer, the stopped graph and the found device stay held. |
| LifecycleProperties.NoQuitHangs | gst/gst_viewer.cpp:456 | Without a key press or a bus error the main loop never returns. |
| LifecycleProperties.FindFailureContext | gst/gst_viewer.cpp:423-430 | When no device is found, the C++ viewer exits with the libuvc context still open. The C viewer (gst/gst_viewer.c:276-281, 316-318) makes the same calls plus `uvc_exit`. |
| LifecycleProperties.VariantsAgreeOtherwise | gst/gst_viewer.c:238-318 | On every other outcome the two viewers make the same calls and exit the same way. |
| LifecycleProperties.StartFailureLeavesPlaying | gst/gst_viewer.cpp:445-471 | When streaming cannot start, the graph is left PLAYING, the watch and loop stay, and the key-wait thread keeps running. The device and the context are closed, and the main loop never runs. |
| LifecycleProperties.StartPrefix | gst/gst_viewer.cpp:413-453 | With GStreamer, libuvc, the search and the open all successful, the first 14 calls end with the stream negotiation, and the 15th starts the stream from the state they leave. |
| LifecycleProperties.StreamStartIgnoresCtrl | gst/gst_viewer.cpp:448-453 | The negotiation result is never checked: the stream is always started right after it, with the device open, and `ctrl` is filled in at that point exactly when the negotiation succeeded. The C viewer (gst/gst_viewer.c:293-298) does the same. |
| LifecycleProperties.ExitStatusIgnoresStreamCtrl | gst/gst_viewer.cpp:448-453 | The stream-control result is overwritten unread: it never changes `main`'s return value. |
| LifecycleProperties.ExitZeroIff | gst/gst_viewer.cpp:413-471 | Outside the listing, `main` returns 0 exactly when every step succeeded and the session was ended by a key press or a bus error. |
| LifecycleProperties.MinusOneAmbiguous | gst/gst_viewer.cpp:413-421 | `main` returns -1 both for a graph that failed to build and for a libuvc init that failed with `UVC_ERROR_IO`, with different resources held. |
| LifecycleProperties.ListingIff | gst/gst_viewer.c:247-273 | `-l` exits 0 exactly when every descriptor can be read, having released the list and the context. Otherwise it spins forever on the first unreadable one. |

## Left out

- The key-wait thread is not modelled as a thread. Its blocking `read`, `pthread_cancel`/`pthread_join` and any interleaving with the main loop are reduced to a `KeyPressed` input and to the thread states NotStarted/Running/Cancelled/Joined. A key press that arrives between `g_main_loop_unref` and `pthread_cancel` is therefore not examined. The C `keywait` also lacks a return statement.
- `g_timer_elapsed`, the unused `ms` and `pts` locals, and `dwClockFrequency` are stored or computed but never read, so they are not modelled.
- Everything printed is left out: `print_help`, the `[ERROR]`/`[WARN]`/`[DEBUG]` lines, `uvc_perror`, and the `-l` table. Only the bus callback's two lines and `pushbuffer errorn` are modelled as logs.
- The `g_assert` on the parsed graph is left out. It would abort before the NULL check; only the NULL-return path (`main` returns -1) is modelled.
- `gst_init` may remove GStreamer's own options from `argv` before the C viewer checks `argv[1]` for `-l`. The model checks the `argv` it is given.
- Lifecycle.ListFromFacts: an unreadable descriptor is assumed to stay unreadable, so the retried `continue` is modelled as a hang rather than as a sequence of fresh attempts.
- The C++ `pipe_proc` copy is never freed, and neither program unrefs the graph, the ingress element or the device. The graph and the found device are tracked, and no path releases them once acquired. `pipe_proc` and the ingress element are not tracked as resources: they are released at process exit.
- Sample.Pts: `sequence` is taken as 32-bit, as in stock libuvc's `uvc_frame_t`. libuvc is not part of this model. With a 64-bit sequence the product would not wrap at 2^32.
- LifecycleProperties.LaunchSafe: starting the stream from a `ctrl` that the failed negotiation left unfilled (it is declared uninitialised at gst/gst_viewer.cpp:390 and gst/gst_viewer.c:209) is not counted as unsafe. `ctrl` is a plain local, not a resource. StreamStartIgnoresCtrl states this unchecked use instead. The frame interval copied from such a `ctrl` (gst/gst_viewer.cpp:450) is whatever the `interval` parameter of FrameBridge is.
- `Exited(code)` is `main`'s return value, an unbounded integer. The status the parent process sees is that value modulo 256: `return -1` shows as 255, and a negative libuvc error code shows as its low 8 bits. The exit-status lemmas (ExitZeroIff, MinusOneAmbiguous, ExitStatusIgnoresStreamCtrl, CppMain's exit codes) are about the return value.
- LifecycleProperties.ExitZeroIff: a key press is modelled only as an input to the running main loop. The key-wait thread starts at gst/gst_viewer.cpp:446 (gst/gst_viewer.c:291), but the main loop runs only from gst/gst_viewer.cpp:456 (gst/gst_viewer.c:301). A `g_main_loop_quit` issued before then is lost, and the loop then waits for a bus error. The thread also reads file descriptor 1, standard output, at gst/gst_viewer.cpp:162 (gst/gst_viewer.c:157). When standard output is not readable, that read fails at once and causes such an early quit. In those runs a key press does not lead to exit status 0.
- Frames are delivered one at a time: the capture driver's own thread and its timing are not modelled.
- GStreamer caps negotiation, the `push-buffer` signal and graph state changes are foreign. They appear only as the `FlowReturn` results and events above.
