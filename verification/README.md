# Module-orchestration cores of a small game-engine prototype

This project models, in Dafny, the two orchestration cores of the engine
prototype: the **microkernel** (`MicrokernelGameEngine.cpp`) and the
**layer stack** (`LayeredGameEngine.cpp`). Both are bookkeeping over ordered
sequences and maps. The properties proved are about ordering, early exit and
the lack of message retention.

- `MessageBus` (message_bus.dfy): the topic → ordered-subscriber-list map.
  `Subscribe` appends. `SendMessage` delivers synchronously to every
  subscriber of the topic, in subscription order. Callbacks are opaque
  `SubId`s, and a publication is the trace of `Delivery(subscriber, payload)`
  values it produces. `Replay` runs a sequence of bus calls.
- `Microkernel` (microkernel.dfy): the name → module map plus the
  registration-order list of names, and the bus owned by the kernel.
  A module is a value made of three things: its name, the event names its
  `OnEvent` consumes, and the bus calls its `OnAttach` makes.
  `RegisterModule` files the module, appends its name and runs the attach
  hook on the kernel's bus. `RunMainLoop` runs the frame loop over the
  modules the order list resolves to. The demo's `RenderingModule` and
  `UIModule` are modelled, and so is `LoadImage`, whose input is the file's
  content or `None` when the file cannot be opened.
- `LayerStack` (layer_stack.dfy): one sequence split by the insertion
  cursor. `PushLayer` inserts at the cursor and advances it. `PushOverlay`
  appends. `Build` replays a sequence of pushes, and `BuildBands` proves the
  two-band invariant.
- `Application` (application.dfy): `Application::Run` (five frames) and the
  layered demo.
- `FrameLoop` (frame_loop.dfy): the parts the two engines share, namely
  the `Event` value, the reverse dispatch walk with early exit (`WalkBack`,
  `Dispatch`), one frame (`RunFrame`) and the counted frame loop
  (`RunFrames`). A frame is a pure value that records four things: the `dt`
  handed to the update hooks, the entries updated, the entries dispatched to,
  and the final `handled` flag.
- `Wrappers` (wrappers.dfy): `Option`.

Inputs that the modelled code gets from its environment are parameters. The
elapsed time of frame `i` is `delta(i)`, and a file's content is an
`Option<string>`.

Two behaviours of the code are kept as written:
- Registering a duplicate name is not rejected. The map entry is overwritten,
  the order list holds the name twice, and both positions resolve to the
  newest module (`RegisterAllResolvesToNewest`).
- There is no registry state machine, and `OnDetach` is never called.

One consequence of the code is proved as-is: in the demo, `Rendering`
announces `"ModuleReady"` in its attach hook before `UI` has subscribed. UI
therefore never receives the announcement, but it would if the two were
registered the other way round (`DemoAttachDeliversNothing`).

## Model

| member | source | states |
|---|---|---|
| `MessageBus.Subscribe` | MicrokernelGameEngine.cpp:22-24 | the topic's list becomes the old list followed by the new callback, and every other topic's list is unchanged |
| `MessageBus.Invoke` | MicrokernelGameEngine.cpp:29 | calling a list of callbacks yields one delivery per callback, in list order, each carrying the same payload |
| `MessageBus.SendMessage` | MicrokernelGameEngine.cpp:26-31 | an unknown topic gets no delivery; otherwise delivery `i` goes to the topic's `i`th subscriber with the payload, with exactly one delivery per subscriber and none to other topics' subscribers |
| `MessageBus.ReceivesIffSubscribed` | MicrokernelGameEngine.cpp:26-31 | a callback receives a publication on a topic if and only if it is among that topic's subscribers at the time of the call |
| `MessageBus.Apply` | MicrokernelGameEngine.cpp:22-31 | a publication leaves the bus unchanged, and a subscription delivers nothing |
| `MessageBus.ReplaySubscribers` | MicrokernelGameEngine.cpp:22-24 | after any run of bus calls, a topic's list is its old list followed by the callbacks the run subscribed to it, in call order |
| `MessageBus.ReplayPrefix` | MicrokernelGameEngine.cpp:26-31 | the deliveries of the `k`th call of a run are what that call makes on the bus left by the calls before it |
| `MessageBus.ReplayAppend` | MicrokernelGameEngine.cpp:22-31 | running two runs of bus calls back to back leaves the same bus and deliveries as running their concatenation |
| `MessageBus.MessagesNotRetained` | MicrokernelGameEngine.cpp:22-31 | a publication in a run reaches a callback if and only if the callback was subscribed to that topic before the run or by an earlier call of the run, so a later subscriber never receives it |
| `Microkernel.EmptyIsValid` | MicrokernelGameEngine.cpp:84-87 | a fresh kernel satisfies the registry invariant: every order entry resolves, and every module is filed under its own name |
| `Microkernel.Resolve` | MicrokernelGameEngine.cpp:70-71 | looking up the order list gives one module per order entry, and that module carries the entry's name |
| `Microkernel.RegisterModule` | MicrokernelGameEngine.cpp:56-61 | registration preserves the invariant and appends the name to the order. The new last position resolves to the module, earlier positions with the same name now resolve to it too, and other positions are unchanged. The attach hook's bus calls run on the kernel's bus |
| `Microkernel.DuplicateNameResolvesToNewest` | MicrokernelGameEngine.cpp:58-59 | re-registering a name leaves it twice in the order list, and both positions resolve to the newcomer |
| `Microkernel.RegisterAll` | MicrokernelGameEngine.cpp:56-61 | registering a sequence of modules yields a valid kernel whose order list is exactly their names in registration order |
| `Microkernel.RegisterAllReplaysAttachCalls` | MicrokernelGameEngine.cpp:56-61 | a run of registrations leaves the bus, and causes the deliveries, of one replay of all the modules' attach calls joined in registration order, so the bus properties (a message reaches only earlier subscribers) hold for every registration sequence |
| `Microkernel.RegisterAllResolvesToNewest` | MicrokernelGameEngine.cpp:58-59 | after a sequence of registrations, every order position resolves to the last module registered under its name |
| `Microkernel.RunMainLoop` | MicrokernelGameEngine.cpp:63-80 | exactly max(frames, 0) frames, each of them the shared frame over the resolved modules (front-to-back update, back-to-front dispatch with early exit) |
| `Microkernel.RenderingIgnoresEvents` | MicrokernelGameEngine.cpp:104 | the rendering module's `OnEvent` leaves every event unchanged |
| `Microkernel.UIHandlesOnlyClick` | MicrokernelGameEngine.cpp:130-135 | the UI module's `OnEvent` marks an event handled exactly when its name is "Click" (or it already was handled) |
| `Microkernel.AnnounceThenListen` | MicrokernelGameEngine.cpp:95-125 | on a fresh bus, Rendering's announcement followed by UI's subscription delivers nothing |
| `Microkernel.ListenThenAnnounce` | MicrokernelGameEngine.cpp:95-125 | on a fresh bus, UI's subscription followed by Rendering's announcement delivers "Rendering" once, to UI's listener |
| `Microkernel.DemoAttachDeliversNothing` | MicrokernelGameEngine.cpp:95-125 | registering Rendering then UI delivers nothing, because the announcement precedes the subscription; in the opposite order UI's listener receives "Rendering" once |
| `Microkernel.DemoFrameReachesOnlyUI` | MicrokernelGameEngine.cpp:140-146 | in the demo kernel a frame updates Rendering then UI, and its click reaches only UI, which handles it |
| `Microkernel.RunDemo` | MicrokernelGameEngine.cpp:140-149 | the demo runs five frames. Each updates Rendering then UI, and its click reaches UI only, which handles it |
| `Microkernel.Scan` | MicrokernelGameEngine.cpp:110-111 | every extracted line stops before its newline, so no extracted line and not the unterminated rest contains a newline |
| `Microkernel.ScanLosesNothing` | MicrokernelGameEngine.cpp:110-111 | the newline-terminated lines re-joined, followed by the unterminated rest, give back the text, and the rest is empty exactly when the text is empty or ends in a newline |
| `Microkernel.GetLinesRoundTrip` | MicrokernelGameEngine.cpp:110-112 | re-joining the lines `getline` extracts, each followed by a newline, gives back the file's text with its last line newline-terminated |
| `Microkernel.LoadImage` | MicrokernelGameEngine.cpp:107-114 | a file that cannot be opened gives the placeholder "[No Image Found]"; otherwise the image is the file's text, newline-terminated when non-empty |
| `FrameLoop.WalkBack` | MicrokernelGameEngine.cpp:73-77 | the reverse walk visits entries strictly from the back, one per step. Every visited entry but the last declines the event. The event ends handled if and only if it was handled or some entry consumes it, and an unhandled walk visits every entry |
| `FrameLoop.Dispatch` | LayeredGameEngine.cpp:104-108 | dispatching a fresh event visits entries back to front. It ends handled if and only if some entry consumes it, and then it stops right at a consumer. Otherwise it visits all entries |
| `FrameLoop.DispatchStopsAtLastConsumer` | MicrokernelGameEngine.cpp:74-77 | if entry `i` is the consumer nearest the back, the dispatch is handled and visits exactly the entries from the back down to `i`, never an earlier one |
| `FrameLoop.RunFrame` | LayeredGameEngine.cpp:100-108 | a frame updates every entry once, front to back, then dispatches "Click" back to front with early exit, with the dispatch properties above |
| `FrameLoop.RunFrames` | MicrokernelGameEngine.cpp:66-79 | the counted loop yields exactly max(count, 0) frames, frame `i` getting elapsed time `delta(i)` |
| `LayerStack.DefaultLayer` | LayeredGameEngine.cpp:15-21 | a layer with the base class's hooks keeps its name and leaves every event unchanged |
| `LayerStack.PushLayer` | LayeredGameEngine.cpp:35-39 | keeps the cursor within bounds and puts the new layer at the old cursor, which advances by one. The layers band gains it at its end, the overlays band is unchanged, and removing it gives back the old sequence |
| `LayerStack.PushOverlay` | LayeredGameEngine.cpp:41-44 | the new entry lands at the last position and the cursor stays. Older entries keep their positions, the layers band is unchanged, and the overlays band gains it at its end |
| `LayerStack.Build` | LayeredGameEngine.cpp:35-50 | any sequence of pushes from a fresh stack keeps `0 <= insertIndex <= length`, and each push adds exactly one entry |
| `LayerStack.BuildBands` | LayeredGameEngine.cpp:35-44 | after any pushes, the positions before the cursor hold exactly the pushed layers and the rest hold exactly the pushed overlays, each band in push order |
| `LayerStack.LayerPushedAfterOverlayPrecedesIt` | LayeredGameEngine.cpp:35-44 | on a fresh stack, `PushLayer(L1)`, `PushOverlay(O1)`, `PushLayer(L2)` gives [L1, L2, O1] with the cursor at 2 |
| `Application.Run` | LayeredGameEngine.cpp:88-113 | exactly five frames over the stack's entries, each the shared frame |
| `Application.DefaultLayersPassEventsThrough` | LayeredGameEngine.cpp:104-108 | over layers that keep the default `OnEvent`, the click reaches every entry, last to first, and stays unhandled |
| `Application.DemoStack` | LayeredGameEngine.cpp:119-126 | pushing Rendering as a layer and UI as an overlay gives [Rendering, UI] with the cursor at 1 |
| `Application.RunDemo` | LayeredGameEngine.cpp:119-129 | the layered demo runs five frames. Each updates Rendering then UI, and its click reaches UI only, which handles it |

## Left out

- Timing: the `std::chrono` clock, the float `dt` computation and the
  `sleep_for` pacing. `dt` is the opaque parameter `delta`, and the
  `msPerFrame` argument of `RunMainLoop` only paces the loop, so it is not
  modelled.
- All console output. The image the rendering module draws is not part of
  the update trace, and the UI listener's body only prints, so a delivery is
  recorded and nothing more.
- File reading in `LoadImage`: the file is given as its text, or as `None` when
  it cannot be opened. The `getline` length limit is not modelled.
- `std::function` closures and `shared_ptr` ownership: callbacks are opaque
  ids and modules/layers are values. The `if(m_Bus)` null checks always
  succeed after `SetMessageBus`, so they are not modelled.
- Callbacks and the `OnUpdate`/`OnEvent` hooks are taken to make no bus
  calls, which holds for every callback and hook in the program. So a
  publication leaves the bus unchanged, and deliveries nested inside a
  callback are not recorded in the trace.
- A callback that subscribes to the topic it is being delivered from is
  undefined behaviour in the source (iterator invalidation), so the model
  gives it no meaning.
- `OnDetach` and teardown: no code path calls `OnDetach`, and
  `LayerStack`'s destructor only clears the vector.
- A registry lifecycle state machine and the rejection of duplicate names:
  the code has neither, so the model keeps the code's overwrite behaviour.
- `Application::PushLayer` and `PushOverlay` only forward to the stack, so
  `Application.Run` takes the stack directly.
- `LayerStack.PushLayer`: the 32-bit `unsigned int` cursor is unbounded here.
  Wrap-around would take 2^32 pushed layers.
- `Microkernel.RegisterModule`: it requires the registry invariant
  `Valid`. Every kernel built from a fresh one satisfies it
  (`EmptyIsValid`, `RegisterModule`), so the requirement excludes no reachable
  kernel.
- The window, message pump and Direct3D renderer under `Src/` are not part
  of this model; they are OS and graphics I/O.
