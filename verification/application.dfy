/**
 The layered engine's application: it owns one layer stack and runs the
 shared frame loop over it for a fixed five frames.
 */
module Application {
  import opened FrameLoop
  import LayerStack

  /** `Run` stops after this many frames; nothing ever clears `running`. */
  const FrameCount: nat := 5

  /** `Run`: exactly five frames over the stack's entries; each frame updates
      them front to back, then walks one "Click" from the back, stopping
      after the first entry that consumes it. */
  method Run(s: LayerStack.Stack, delta: nat -> real) returns (trace: seq<Frame<LayerStack.Layer>>)
    requires LayerStack.Valid(s)
    ensures |trace| == FrameCount
    ensures forall i :: 0 <= i < |trace| ==> trace[i] == RunFrame(s.layers, LayerStack.Consumes, delta(i))
  {
    trace := RunFrames(s.layers, LayerStack.Consumes, FrameCount, delta);
  }

  /** A stack of default layers never consumes an event, so every frame's
      click reaches every entry, last to first, and stays unhandled. */
  lemma DefaultLayersPassEventsThrough(s: LayerStack.Stack, dt: real)
    requires forall i :: 0 <= i < |s.layers| ==> s.layers[i].consumes == {}
    ensures var f := RunFrame(s.layers, LayerStack.Consumes, dt);
            !f.handled && |f.dispatched| == |s.layers|
            && forall j :: 0 <= j < |s.layers| ==> f.dispatched[j] == s.layers[|s.layers| - 1 - j]
  {
  }

  /** The rendering layer keeps the default `OnEvent`. */
  const RenderingLayer: LayerStack.Layer := LayerStack.DefaultLayer("Rendering")

  /** The UI layer's `OnEvent` consumes "Click" and nothing else. */
  const UILayer: LayerStack.Layer := LayerStack.Layer("UI", {Click})

  /** The program's `main` stack: Rendering pushed as a layer, UI as an
      overlay. */
  function DemoStack(): (s: LayerStack.Stack)
    ensures LayerStack.Valid(s)
    ensures s.layers == [RenderingLayer, UILayer] && s.insertIndex == 1
  {
    LayerStack.PushOverlay(LayerStack.PushLayer(LayerStack.Empty, RenderingLayer), UILayer)
  }

  /** The program's `main`: five frames over [Rendering, UI]; every frame
      updates both, and its click reaches UI only, which handles it. */
  method RunDemo(delta: nat -> real) returns (trace: seq<Frame<LayerStack.Layer>>)
    ensures |trace| == 5
    ensures forall i :: 0 <= i < 5 ==>
              trace[i].updated == [RenderingLayer, UILayer]
              && trace[i].dispatched == [UILayer] && trace[i].handled
  {
    var s := DemoStack();
    trace := Run(s, delta);
    forall i | 0 <= i < 5
      ensures trace[i].dispatched == [UILayer] && trace[i].handled
    {
      DispatchStopsAtLastConsumer(s.layers, LayerStack.Consumes, Click, 1);
    }
  }
}
