/**
 The layer stack: one sequence of layers split by an insertion cursor.
 Entries before the cursor are the layers, in push order; entries from the
 cursor on are the overlays, in push order. Pushing a layer inserts it at the
 cursor and moves the cursor past it; pushing an overlay appends it.
 */
module LayerStack {
  import opened FrameLoop

  /** A layer, reduced to its name and the event names its `OnEvent`
      consumes. */
  datatype Layer = Layer(name: string, consumes: set<string>)

  function Consumes(l: Layer): set<string>
  {
    l.consumes
  }

  /** A layer that keeps the base class's hooks: its `OnEvent` consumes
      nothing. */
  function DefaultLayer(name: string): (l: Layer)
    ensures l.name == name
    ensures forall e: Event :: OnEvent(l.consumes, e) == e
  {
    Layer(name, {})
  }

  datatype Stack = Stack(layers: seq<Layer>, insertIndex: nat)

  /** The cursor lies within the sequence, so inserting at it is defined. */
  predicate Valid(s: Stack)
  {
    s.insertIndex <= |s.layers|
  }

  /** A freshly constructed stack: no entries, cursor at 0. */
  const Empty: Stack := Stack([], 0)

  /** The layers band: everything before the cursor. */
  function LayerBand(s: Stack): seq<Layer>
    requires Valid(s)
  {
    s.layers[..s.insertIndex]
  }

  /** The overlays band: everything from the cursor on. */
  function OverlayBand(s: Stack): seq<Layer>
    requires Valid(s)
  {
    s.layers[s.insertIndex..]
  }

  /** `PushLayer`: `l` lands at the old cursor position, which then moves one
      step right. The layers band gains `l` at its end, the overlays band is
      untouched, and removing `l` again gives back the old sequence. */
  function PushLayer(s: Stack, l: Layer): (r: Stack)
    requires Valid(s)
    ensures Valid(r)
    ensures r.insertIndex == s.insertIndex + 1
    ensures |r.layers| == |s.layers| + 1
    ensures r.layers[s.insertIndex] == l
    ensures r.layers[..s.insertIndex] + r.layers[s.insertIndex + 1..] == s.layers
    ensures LayerBand(r) == LayerBand(s) + [l]
    ensures OverlayBand(r) == OverlayBand(s)
  {
    var i := s.insertIndex;
    Stack(s.layers[..i] + [l] + s.layers[i..], i + 1)
  }

  /** `PushOverlay`: `o` lands at the last position and the cursor stays.
      The overlays band gains `o` at its end, the layers band is untouched,
      and every older entry keeps its position. */
  function PushOverlay(s: Stack, o: Layer): (r: Stack)
    ensures r.insertIndex == s.insertIndex
    ensures |r.layers| == |s.layers| + 1
    ensures r.layers[|s.layers|] == o
    ensures r.layers[..|s.layers|] == s.layers
    ensures Valid(s) ==> Valid(r) && LayerBand(r) == LayerBand(s)
    ensures Valid(s) ==> OverlayBand(r) == OverlayBand(s) + [o]
  {
    Stack(s.layers + [o], s.insertIndex)
  }

  /** One push call. */
  datatype Push = PushLayerOp(layer: Layer) | PushOverlayOp(layer: Layer)

  /** The stack left by performing `ops` in order on a fresh stack. */
  function Build(ops: seq<Push>): (s: Stack)
    ensures Valid(s)
    ensures |s.layers| == |ops|
    decreases |ops|
  {
    if ops == [] then Empty
    else
      Perform(Build(ops[..|ops| - 1]), ops[|ops| - 1])
  }

  /** Performs one push call. */
  function Perform(s: Stack, op: Push): (r: Stack)
    requires Valid(s)
    ensures Valid(r)
  {
    match op
    case PushLayerOp(l) => PushLayer(s, l)
    case PushOverlayOp(o) => PushOverlay(s, o)
  }

  /** The layers pushed by `ops` with `PushLayer`, in push order. */
  function PushedLayers(ops: seq<Push>): seq<Layer>
    decreases |ops|
  {
    if ops == [] then []
    else
      var prev := PushedLayers(ops[..|ops| - 1]);
      if ops[|ops| - 1].PushLayerOp? then prev + [ops[|ops| - 1].layer] else prev
  }

  /** The layers pushed by `ops` with `PushOverlay`, in push order. */
  function PushedOverlays(ops: seq<Push>): seq<Layer>
    decreases |ops|
  {
    if ops == [] then []
    else
      var prev := PushedOverlays(ops[..|ops| - 1]);
      if ops[|ops| - 1].PushOverlayOp? then prev + [ops[|ops| - 1].layer] else prev
  }

  /** After any sequence of pushes, the positions before the cursor hold
      exactly the pushed layers and the positions from the cursor on hold
      exactly the pushed overlays, each band in push order; so every layer
      precedes every overlay. */
  lemma {:induction false} BuildBands(ops: seq<Push>)
    ensures LayerBand(Build(ops)) == PushedLayers(ops)
    ensures OverlayBand(Build(ops)) == PushedOverlays(ops)
    ensures Build(ops).insertIndex == |PushedLayers(ops)|
    ensures Build(ops).layers == PushedLayers(ops) + PushedOverlays(ops)
    decreases |ops|
  {
    if ops != [] {
      BuildBands(ops[..|ops| - 1]);
      var s := Build(ops);
      assert s.layers == LayerBand(s) + OverlayBand(s);
    }
  }

  /** A layer pushed after an overlay still lands before it. */
  lemma LayerPushedAfterOverlayPrecedesIt(l1: Layer, o1: Layer, l2: Layer)
    ensures PushLayer(PushOverlay(PushLayer(Empty, l1), o1), l2) == Stack([l1, l2, o1], 2)
  {
  }
}
