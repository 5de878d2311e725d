/**
 Events, their reverse-order propagation with early exit, and the fixed
 frame loop. Both engines (the microkernel and the layer stack) run the very
 same frame: every participant is updated first to last, then one fresh
 "Click" event is walked last to first until a participant marks it handled.
 */
module FrameLoop {

  /** A transient event: the name it carries and whether someone consumed it. */
  datatype Event = Event(name: string, handled: bool)

  /** The name of the one event synthesised per frame. */
  const Click: string := "Click"

  /** An `OnEvent` hook that consumes exactly the event names in `consumes`:
      it sets `handled` for those names and leaves every other event alone. */
  function OnEvent(consumes: set<string>, e: Event): (r: Event)
    ensures r.name == e.name
    ensures r.handled <==> e.handled || e.name in consumes
  {
    if e.name in consumes then e.(handled := true) else e
  }

  /** What a dispatch walk leaves behind: the participants whose `OnEvent`
      ran, in call order, and the event as the last of them left it. */
  datatype Walk<T> = Walk(visited: seq<T>, event: Event)

  /** The reverse dispatch loop over `items[..n]`: call `OnEvent` on
      `items[n-1]`, then `items[n-2]`, ..., and stop right after the first
      call that leaves the event handled. */
  function WalkBack<T>(items: seq<T>, consumes: T -> set<string>, n: nat, e: Event): (r: Walk<T>)
    requires n <= |items|
    ensures r.event.name == e.name
    ensures |r.visited| <= n
    ensures n > 0 ==> |r.visited| > 0
    ensures forall j :: 0 <= j < |r.visited| ==> r.visited[j] == items[n - 1 - j]
    ensures forall j :: 0 <= j < |r.visited| - 1 ==> e.name !in consumes(r.visited[j])
    ensures forall i :: n - |r.visited| < i < n ==> e.name !in consumes(items[i])
    ensures r.event.handled <==> e.handled || exists i :: 0 <= i < n && e.name in consumes(items[i])
    ensures !e.handled && r.event.handled ==> e.name in consumes(r.visited[|r.visited| - 1])
    ensures !r.event.handled ==> |r.visited| == n
    decreases n
  {
    if n == 0 then Walk([], e)
    else
      var e' := OnEvent(consumes(items[n - 1]), e);
      if e'.handled then Walk([items[n - 1]], e')
      else
        var rest := WalkBack(items, consumes, n - 1, e');
        Walk([items[n - 1]] + rest.visited, rest.event)
  }

  /** Dispatches a fresh (unhandled) event named `name` over all of `items`,
      back to front, with early exit. */
  function Dispatch<T>(items: seq<T>, consumes: T -> set<string>, name: string): (r: Walk<T>)
    ensures r.event.name == name
    ensures |r.visited| <= |items|
    ensures forall j :: 0 <= j < |r.visited| ==> r.visited[j] == items[|items| - 1 - j]
    ensures forall j :: 0 <= j < |r.visited| - 1 ==> name !in consumes(r.visited[j])
    ensures forall i :: |items| - |r.visited| < i < |items| ==> name !in consumes(items[i])
    ensures r.event.handled <==> exists i :: 0 <= i < |items| && name in consumes(items[i])
    ensures r.event.handled ==> 0 < |r.visited| && name in consumes(r.visited[|r.visited| - 1])
    ensures !r.event.handled ==> |r.visited| == |items|
  {
    WalkBack(items, consumes, |items|, Event(name, false))
  }

  /** The dispatch stops exactly at the consumer nearest the back: the walk
      visits `items[|items|-1]` down to `items[i]` and never reaches an entry
      before `i`. */
  lemma DispatchStopsAtLastConsumer<T>(items: seq<T>, consumes: T -> set<string>, name: string, i: nat)
    requires i < |items|
    requires name in consumes(items[i])
    requires forall j :: i < j < |items| ==> name !in consumes(items[j])
    ensures Dispatch(items, consumes, name).event.handled
    ensures |Dispatch(items, consumes, name).visited| == |items| - i
  {
  }

  /** One frame of either engine. `dt` is the elapsed time handed to every
      update hook; `updated` and `dispatched` are the participants whose
      `OnUpdate` and `OnEvent` ran, in call order. */
  datatype Frame<T> = Frame(dt: real, updated: seq<T>, dispatched: seq<T>, handled: bool)

  /** One iteration of the frame loop: update every participant first to
      last, then dispatch one "Click" last to first with early exit. */
  function RunFrame<T>(items: seq<T>, consumes: T -> set<string>, dt: real): (r: Frame<T>)
    ensures r.dt == dt
    ensures r.updated == items
    ensures |r.dispatched| <= |items|
    ensures forall j :: 0 <= j < |r.dispatched| ==> r.dispatched[j] == items[|items| - 1 - j]
    ensures r.handled <==> exists i :: 0 <= i < |items| && Click in consumes(items[i])
    ensures forall j :: 0 <= j < |r.dispatched| - 1 ==> Click !in consumes(r.dispatched[j])
    ensures r.handled ==> 0 < |r.dispatched| && Click in consumes(r.dispatched[|r.dispatched| - 1])
    ensures !r.handled ==> |r.dispatched| == |items|
  {
    var w := Dispatch(items, consumes, Click);
    Frame(dt, items, w.visited, w.event.handled)
  }

  /** The frame loop `for (i = 0; i < count; ++i)`: exactly max(count, 0)
      frames, frame `i` receiving the elapsed time `delta(i)`. Nothing a frame
      does changes the participants, so every frame is the same apart from
      its `dt`. */
  method RunFrames<T>(items: seq<T>, consumes: T -> set<string>, count: int, delta: nat -> real)
    returns (frames: seq<Frame<T>>)
    ensures |frames| == if count < 0 then 0 else count
    ensures forall i :: 0 <= i < |frames| ==> frames[i] == RunFrame(items, consumes, delta(i))
  {
    frames := [];
    var i: nat := 0;
    while i < count
      invariant count >= 0 ==> i <= count
      invariant count < 0 ==> i == 0
      invariant |frames| == i
      invariant forall j :: 0 <= j < i ==> frames[j] == RunFrame(items, consumes, delta(j))
    {
      frames := frames + [RunFrame(items, consumes, delta(i))];
      i := i + 1;
    }
  }
}
