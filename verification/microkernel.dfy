/**
 The microkernel: a registry of named modules, kept as a name-to-module map
 plus the list of names in registration order, and owning the message bus
 that every registered module is handed. Registering a module runs its
 attach hook at once; the main loop then drives the shared frame loop over
 the registered modules.
 */
module Microkernel {
  import opened Wrappers
  import opened FrameLoop
  import MessageBus

  /** A module, reduced to what the kernel can observe of it: its name, the
      event names its `OnEvent` consumes (sets `handled` for), and the calls
      its `OnAttach` makes on the bus it was handed. */
  datatype Module = Module(name: string, consumes: set<string>, onAttach: seq<MessageBus.BusOp>)

  function Consumes(m: Module): set<string>
  {
    m.consumes
  }

  datatype Kernel = Kernel(modules: map<string, Module>, order: seq<string>, bus: MessageBus.Bus)

  /** A freshly constructed kernel. */
  const Empty: Kernel := Kernel(map[], [], MessageBus.Empty)

  /** Every name in the order list resolves in the map, and the map files
      each module under its own name. Every kernel built by `RegisterModule`
      from `Empty` satisfies this, so looking a name up never misses. */
  ghost predicate Valid(k: Kernel)
  {
    && (forall i :: 0 <= i < |k.order| ==> k.order[i] in k.modules)
    && (forall n :: n in k.modules ==> k.modules[n].name == n)
  }

  lemma EmptyIsValid()
    ensures Valid(Empty)
  {
  }

  /** The modules the loop calls, position by position: `m_Modules[name]` for
      each entry of the order list. */
  function Resolve(k: Kernel): (r: seq<Module>)
    requires Valid(k)
    ensures |r| == |k.order|
    ensures forall i :: 0 <= i < |r| ==> r[i].name == k.order[i]
  {
    seq(|k.order|, i requires 0 <= i < |k.order| => k.modules[k.order[i]])
  }

  /** A registration's outcome: the new kernel and, for each bus call the
      attach hook made, the deliveries that call caused. */
  datatype Registration = Registration(kernel: Kernel, deliveries: seq<seq<MessageBus.Delivery>>)

  /** `RegisterModule`: files `m` under its name (overwriting a module of the
      same name), appends the name to the order list, and then runs `m`'s
      attach hook against the kernel's bus. A duplicate name is not
      rejected: the order list then holds the name twice and every position
      holding it resolves to the newest module. */
  function RegisterModule(k: Kernel, m: Module): (r: Registration)
    requires Valid(k)
    ensures Valid(r.kernel)
    ensures r.kernel.order == k.order + [m.name]
    ensures |Resolve(r.kernel)| == |k.order| + 1 && Resolve(r.kernel)[|k.order|] == m
    ensures forall i :: 0 <= i < |k.order| ==>
              Resolve(r.kernel)[i] == if k.order[i] == m.name then m else Resolve(k)[i]
    ensures r.kernel.bus == MessageBus.Replay(k.bus, m.onAttach).bus
    ensures r.deliveries == MessageBus.Replay(k.bus, m.onAttach).deliveries
  {
    var registered := Kernel(k.modules[m.name := m], k.order + [m.name], k.bus);
    var attached := MessageBus.Replay(registered.bus, m.onAttach);
    Registration(registered.(bus := attached.bus), attached.deliveries)
  }

  /** Registering the same name again keeps both order entries, and both now
      resolve to the newcomer. */
  lemma DuplicateNameResolvesToNewest(k: Kernel, m: Module, i: nat)
    requires Valid(k)
    requires i < |k.order| && k.order[i] == m.name
    ensures var k' := RegisterModule(k, m).kernel;
            k'.order[i] == k'.order[|k.order|] == m.name
            && Resolve(k')[i] == Resolve(k')[|k.order|] == m
  {
  }

  /** Registers `ms` one after the other into a fresh kernel, collecting the
      deliveries every attach hook caused. */
  function RegisterAll(ms: seq<Module>): (r: Registration)
    ensures Valid(r.kernel)
    ensures |r.kernel.order| == |ms|
    ensures forall i :: 0 <= i < |ms| ==> r.kernel.order[i] == ms[i].name
    decreases |ms|
  {
    if ms == [] then Registration(Empty, [])
    else
      var prev := RegisterAll(ms[..|ms| - 1]);
      var step := RegisterModule(prev.kernel, ms[|ms| - 1]);
      Registration(step.kernel, prev.deliveries + step.deliveries)
  }

  /** The bus calls the attach hooks of `ms` make, in registration order. */
  function AttachCalls(ms: seq<Module>): seq<MessageBus.BusOp>
    decreases |ms|
  {
    if ms == [] then [] else AttachCalls(ms[..|ms| - 1]) + ms[|ms| - 1].onAttach
  }

  /** A run of registrations acts on the bus exactly like one replay of all
      the attach calls, so every property of replays (a message reaches only
      the callbacks subscribed before it) holds across registrations. */
  lemma {:induction false} RegisterAllReplaysAttachCalls(ms: seq<Module>)
    ensures RegisterAll(ms).kernel.bus == MessageBus.Replay(MessageBus.Empty, AttachCalls(ms)).bus
    ensures RegisterAll(ms).deliveries == MessageBus.Replay(MessageBus.Empty, AttachCalls(ms)).deliveries
    decreases |ms|
  {
    if ms != [] {
      var init := ms[..|ms| - 1];
      RegisterAllReplaysAttachCalls(init);
      MessageBus.ReplayAppend(MessageBus.Empty, AttachCalls(init), ms[|ms| - 1].onAttach);
    }
  }

  /** After a run of registrations, position `i` of the order resolves to the
      LAST module registered under that position's name. */
  lemma {:induction false} RegisterAllResolvesToNewest(ms: seq<Module>, i: nat, j: nat)
    requires i <= j < |ms|
    requires ms[j].name == ms[i].name
    requires forall l :: j < l < |ms| ==> ms[l].name != ms[i].name
    ensures Resolve(RegisterAll(ms).kernel)[i] == ms[j]
    decreases |ms|
  {
    var init := ms[..|ms| - 1];
    var prev := RegisterAll(init).kernel;
    if j < |ms| - 1 {
      RegisterAllResolvesToNewest(init, i, j);
      assert Resolve(prev)[i] == ms[j];
    }
  }

  /** `RunMainLoop(frames, ...)`: exactly max(frames, 0) frames; every frame
      updates each order entry front to back and then walks one "Click" from
      the back, stopping after the first module that consumes it. */
  method RunMainLoop(k: Kernel, frames: int, delta: nat -> real) returns (trace: seq<Frame<Module>>)
    requires Valid(k)
    ensures |trace| == if frames < 0 then 0 else frames
    ensures forall i :: 0 <= i < |trace| ==> trace[i] == RunFrame(Resolve(k), Consumes, delta(i))
  {
    trace := RunFrames(Resolve(k), Consumes, frames, delta);
  }

  // ----- The two module kinds of the demo -----

  const ModuleReady: MessageBus.Topic := "ModuleReady"

  /** Identity of the callback the UI module subscribes in its attach hook. */
  const UiReadyListener: MessageBus.SubId := 0

  /** Attaching announces readiness on the bus with its own name as payload;
      its `OnEvent` does nothing. */
  const Rendering: Module := Module("Rendering", {}, [MessageBus.Send(ModuleReady, "Rendering")])

  /** Attaching subscribes a listener to readiness announcements; its
      `OnEvent` consumes "Click" and nothing else. */
  const UI: Module := Module("UI", {Click}, [MessageBus.Sub(ModuleReady, UiReadyListener)])

  /** The rendering module's `OnEvent` never marks an event handled. */
  lemma RenderingIgnoresEvents(e: Event)
    ensures OnEvent(Rendering.consumes, e) == e
  {
  }

  /** The UI module's `OnEvent` marks exactly "Click" handled. */
  lemma UIHandlesOnlyClick(e: Event)
    ensures OnEvent(UI.consumes, e).handled <==> e.handled || e.name == "Click"
  {
  }

  /** The attach calls of the two demo modules, in either order. */
  lemma DemoAttachCalls()
    ensures AttachCalls([Rendering, UI]) == Rendering.onAttach + UI.onAttach
    ensures AttachCalls([UI, Rendering]) == UI.onAttach + Rendering.onAttach
  {
    assert [Rendering, UI][..1] == [Rendering] && [Rendering][..0] == [];
    assert AttachCalls([Rendering]) == [] + Rendering.onAttach;
    assert [UI, Rendering][..1] == [UI] && [UI][..0] == [];
    assert AttachCalls([UI]) == [] + UI.onAttach;
  }

  /** On a fresh bus, an announcement followed by a subscription reaches
      nobody. */
  lemma AnnounceThenListen()
    ensures MessageBus.Replay(MessageBus.Empty, Rendering.onAttach + UI.onAttach).deliveries == [[], []]
  {
    var announce, listen := Rendering.onAttach[0], UI.onAttach[0];
    MessageBus.ReplaySnoc(MessageBus.Empty, [], announce);
    assert [] + [announce] == [announce];
    assert MessageBus.SendMessage(MessageBus.Empty, ModuleReady, "Rendering") == [];
    MessageBus.ReplaySnoc(MessageBus.Empty, [announce], listen);
    assert [announce] + [listen] == Rendering.onAttach + UI.onAttach;
  }

  /** On a fresh bus, a subscription followed by an announcement delivers it
      once to the subscribed listener. */
  lemma ListenThenAnnounce()
    ensures MessageBus.Replay(MessageBus.Empty, UI.onAttach + Rendering.onAttach).deliveries
            == [[], [MessageBus.Delivery(UiReadyListener, "Rendering")]]
  {
    var announce, listen := Rendering.onAttach[0], UI.onAttach[0];
    MessageBus.ReplaySnoc(MessageBus.Empty, [], listen);
    assert [] + [listen] == [listen];
    var subscribed := MessageBus.Replay(MessageBus.Empty, [listen]).bus;
    assert MessageBus.SubscribersOf(subscribed, ModuleReady) == [UiReadyListener];
    assert MessageBus.SendMessage(subscribed, ModuleReady, "Rendering")
           == [MessageBus.Delivery(UiReadyListener, "Rendering")];
    MessageBus.ReplaySnoc(MessageBus.Empty, [listen], announce);
    assert [listen] + [announce] == UI.onAttach + Rendering.onAttach;
  }

  /** The demo: rendering first, then UI. Rendering publishes before UI has
      subscribed, so the announcement reaches nobody; in the other order UI
      would receive it. */
  lemma DemoAttachDeliversNothing()
    ensures RegisterAll([Rendering, UI]).deliveries == [[], []]
    ensures RegisterAll([UI, Rendering]).deliveries
            == [[], [MessageBus.Delivery(UiReadyListener, "Rendering")]]
  {
    DemoAttachCalls();
    RegisterAllReplaysAttachCalls([Rendering, UI]);
    RegisterAllReplaysAttachCalls([UI, Rendering]);
    AnnounceThenListen();
    ListenThenAnnounce();
  }

  /** In the demo kernel every frame updates Rendering then UI, and the click
      reaches UI only, which handles it; Rendering never sees it. */
  lemma DemoFrameReachesOnlyUI(dt: real)
    ensures var f := RunFrame(Resolve(RegisterAll([Rendering, UI]).kernel), Consumes, dt);
            f.updated == [Rendering, UI] && f.dispatched == [UI] && f.handled
  {
  }

  /** The program's `main`: register Rendering then UI and run five frames. */
  method RunDemo(delta: nat -> real) returns (trace: seq<Frame<Module>>)
    ensures |trace| == 5
    ensures forall i :: 0 <= i < 5 ==>
              trace[i].updated == [Rendering, UI]
              && trace[i].dispatched == [UI] && trace[i].handled
  {
    var k := RegisterAll([Rendering, UI]).kernel;
    trace := RunMainLoop(k, 5, delta);
    forall i | 0 <= i < 5
      ensures trace[i].updated == [Rendering, UI]
      ensures trace[i].dispatched == [UI] && trace[i].handled
    {
      DemoFrameReachesOnlyUI(delta(i));
    }
  }

  // ----- Asset loading -----

  /** What the rendering module draws when its image file cannot be opened. */
  const NoImage: string := "[No Image Found]"

  /** Scanning `s` character by character as `getline` does: the lines
      completed by a newline (without it) and the unterminated text after
      the last newline. */
  function Scan(s: string): (r: (seq<string>, string))
    ensures forall l :: l in r.0 ==> '\n' !in l
    ensures '\n' !in r.1
    decreases |s|
  {
    if s == [] then ([], [])
    else
      var prev := Scan(s[..|s| - 1]);
      if s[|s| - 1] == '\n' then (prev.0 + [prev.1], []) else (prev.0, prev.1 + [s[|s| - 1]])
  }

  /** The lines repeated `getline` calls extract: every newline-terminated
      line, plus the unterminated rest when it is not empty (an empty rest
      makes the next call fail). */
  function GetLines(s: string): seq<string>
  {
    var scanned := Scan(s);
    if scanned.1 == [] then scanned.0 else scanned.0 + [scanned.1]
  }

  /** `content += line + "\n"` over all lines. */
  function JoinLines(lines: seq<string>): string
    decreases |lines|
  {
    if lines == [] then [] else JoinLines(lines[..|lines| - 1]) + lines[|lines| - 1] + "\n"
  }

  /** The text with a final newline added if it lacks one. */
  function Terminated(s: string): string
  {
    if s == [] || s[|s| - 1] == '\n' then s else s + "\n"
  }

  /** Joining one more line appends it, terminated. */
  lemma JoinLinesSnoc(lines: seq<string>, line: string)
    ensures JoinLines(lines + [line]) == JoinLines(lines) + line + "\n"
  {
  }

  /** The scan loses nothing: the completed lines re-joined, followed by the
      unterminated rest, are the text itself, and the rest is empty exactly
      when the text is empty or ends in a newline. */
  lemma {:induction false} ScanLosesNothing(s: string)
    ensures JoinLines(Scan(s).0) + Scan(s).1 == s
    ensures Scan(s).1 == [] <==> s == [] || s[|s| - 1] == '\n'
    decreases |s|
  {
    if s != [] {
      var init := s[..|s| - 1];
      var c := s[|s| - 1];
      ScanLosesNothing(init);
      var prev := Scan(init);
      assert s == init + [c];
      if c == '\n' {
        JoinLinesSnoc(prev.0, prev.1);
      }
    }
  }

  /** Reading a file line by line and re-joining the lines gives back the
      file with its last line newline-terminated. */
  lemma GetLinesRoundTrip(s: string)
    ensures JoinLines(GetLines(s)) == Terminated(s)
  {
    var scanned := Scan(s);
    ScanLosesNothing(s);
    if scanned.1 != [] {
      JoinLinesSnoc(scanned.0, scanned.1);
    }
  }

  /** `LoadImage`: `None` is a file that cannot be opened. An openable file
      yields its content with the last line newline-terminated; an empty
      file yields the empty image. */
  function LoadImage(file: Option<string>): (image: string)
    ensures file.None? ==> image == NoImage
    ensures file.Some? ==> image == Terminated(file.value)
    ensures file.Some? && file.value != [] ==> image[|image| - 1] == '\n'
  {
    match file
    case None => NoImage
    case Some(s) => GetLinesRoundTrip(s); JoinLines(GetLines(s))
  }
}
