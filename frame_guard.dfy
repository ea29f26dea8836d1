/** Frame coalescing for the `scroll` and `mousemove` handlers (script.js).
    Each source owns one flag (`scrollScheduled`, `mouseScheduled`): an event
    asks for an animation-frame callback only when the flag is clear and then
    sets it; the callback clears it again. The mouse callback returns early,
    before clearing its flag, when the page has no `.hero` element.

    The browser's animation-frame queue is modelled by `queued`, the number of
    this source's callbacks registered and not yet run. The parallax and
    pointer-offset styling the callbacks perform is not modelled. */
module FrameScheduling {

  datatype Source = Scroll | Mouse

  /** The state of one source: its flag and its callbacks awaiting a frame. */
  datatype Guard = Guard(scheduled: bool, queued: nat)

  const Idle := Guard(false, 0)

  /** What the world can do to a source: fire an event, or render a frame
      (at which moment the page either has a `.hero` element or not). */
  datatype Event = Notified | FrameRendered(heroPresent: bool)

  /** The event handler: register a callback unless one is pending. */
  function AfterNotify(g: Guard): Guard {
    if g.scheduled then g else Guard(true, g.queued + 1)
  }

  /** Whether the callback of `src` clears the flag when it runs. */
  predicate CallbackClears(src: Source, heroPresent: bool) {
    src == Scroll || heroPresent
  }

  /** A rendered frame: every queued callback of this source runs once. */
  function AfterFrame(src: Source, heroPresent: bool, g: Guard): Guard {
    if g.queued == 0 then g
    else Guard(g.scheduled && !CallbackClears(src, heroPresent), 0)
  }

  function Step(src: Source, g: Guard, e: Event): Guard {
    match e
    case Notified => AfterNotify(g)
    case FrameRendered(heroPresent) => AfterFrame(src, heroPresent, g)
  }

  function Replay(src: Source, g: Guard, events: seq<Event>): Guard
    decreases |events|
  {
    if events == [] then g else Replay(src, Step(src, g, events[0]), events[1..])
  }

  /** `n` events fired between two frames. */
  function Burst(n: nat): (events: seq<Event>)
    ensures |events| == n
    ensures forall i :: 0 <= i < n ==> events[i] == Notified
  {
    seq(n, _ => Notified)
  }

  /** At most one callback per source is pending, and a pending callback
      implies the flag is set. */
  predicate Coherent(g: Guard) {
    g.queued <= 1 && (g.queued == 1 ==> g.scheduled)
  }

  /** For scroll the flag is set exactly while its callback is pending. */
  predicate InStep(g: Guard) {
    g.scheduled <==> g.queued == 1
  }

  /** No frame in `events` finds a `.hero` element. */
  predicate HeroAbsent(events: seq<Event>) {
    forall i :: 0 <= i < |events| ==> events[i] != FrameRendered(true)
  }

  /** No frame in `events` misses the `.hero` element. */
  predicate HeroPresent(events: seq<Event>) {
    forall i :: 0 <= i < |events| ==> events[i] != FrameRendered(false)
  }

  lemma {:induction false} ReplayAppend(src: Source, g: Guard, a: seq<Event>, b: seq<Event>)
    ensures Replay(src, g, a + b) == Replay(src, Replay(src, g, a), b)
    decreases |a|
  {
    if a == [] {
      assert a + b == b;
    } else {
      assert (a + b)[1..] == a[1..] + b;
      ReplayAppend(src, Step(src, g, a[0]), a[1..], b);
    }
  }

  /** Any number of events between two frames has the effect of the first. */
  lemma {:induction false} BurstCoalesces(src: Source, g: Guard, n: nat)
    requires n >= 1
    ensures Replay(src, g, Burst(n)) == AfterNotify(g)
    decreases n
  {
    if n > 1 {
      assert Burst(n)[1..] == Burst(n - 1);
      BurstCoalesces(src, AfterNotify(g), n - 1);
    } else {
      assert Burst(n)[1..] == [];
    }
  }

  /** From rest, `n >= 1` events leave exactly one callback for the next frame,
      so the update runs exactly once; for scroll that frame ends at rest. */
  lemma BurstRunsOnce(src: Source, n: nat, heroPresent: bool)
    requires n >= 1
    ensures Replay(src, Idle, Burst(n)).queued == 1
    ensures src == Scroll ==> Replay(src, Idle, Burst(n) + [FrameRendered(heroPresent)]) == Idle
  {
    BurstCoalesces(src, Idle, n);
    ReplayAppend(src, Idle, Burst(n), [FrameRendered(heroPresent)]);
  }

  /** Whatever happens, never more than one callback of a source is pending. */
  lemma {:induction false} CoherentKept(src: Source, g: Guard, events: seq<Event>)
    requires Coherent(g)
    ensures Coherent(Replay(src, g, events))
    decreases |events|
  {
    if events != [] {
      CoherentKept(src, Step(src, g, events[0]), events[1..]);
    }
  }

  /** The scroll flag never outlives its callback, so after any frame the next
      scroll event schedules again. */
  lemma {:induction false} ScrollRearms(g: Guard, events: seq<Event>, heroPresent: bool)
    requires Coherent(g) && InStep(g)
    ensures InStep(Replay(Scroll, g, events))
    ensures !Replay(Scroll, g, events + [FrameRendered(heroPresent)]).scheduled
    ensures Replay(Scroll, g, events + [FrameRendered(heroPresent), Notified]).queued == 1
    decreases |events|
  {
    if events != [] {
      ScrollRearms(Step(Scroll, g, events[0]), events[1..], heroPresent);
      assert (events + [FrameRendered(heroPresent)])[1..] == events[1..] + [FrameRendered(heroPresent)];
      assert (events + [FrameRendered(heroPresent), Notified])[1..]
          == events[1..] + [FrameRendered(heroPresent), Notified];
    } else {
      var rested := AfterFrame(Scroll, heroPresent, g);
      assert events + [FrameRendered(heroPresent), Notified] == [FrameRendered(heroPresent), Notified];
      assert [FrameRendered(heroPresent), Notified][1..] == [Notified];
      assert Replay(Scroll, g, [FrameRendered(heroPresent), Notified]) == Replay(Scroll, rested, [Notified]);
      assert Replay(Scroll, rested, [Notified]) == AfterNotify(rested);
    }
  }

  /** Without a `.hero` element the mouse flag, once set, is never cleared:
      no later event registers another callback. */
  lemma {:induction false} MouseSticksWithoutHero(g: Guard, events: seq<Event>)
    requires g.scheduled && HeroAbsent(events)
    ensures Replay(Mouse, g, events).scheduled
    ensures Replay(Mouse, g, events).queued <= g.queued
    decreases |events|
  {
    if events != [] {
      assert HeroAbsent(events[1..]) by {
        forall i | 0 <= i < |events| - 1 ensures events[1..][i] != FrameRendered(true) {
          assert events[1..][i] == events[i + 1];
        }
      }
      MouseSticksWithoutHero(Step(Mouse, g, events[0]), events[1..]);
    }
  }

  /** Once a mouse callback has returned without clearing the flag, nothing is
      queued and the flag is set: no later event or frame, with or without a
      `.hero` element, ever changes that. */
  lemma {:induction false} MouseWedged(events: seq<Event>)
    ensures Replay(Mouse, Guard(true, 0), events) == Guard(true, 0)
    decreases |events|
  {
    if events != [] {
      MouseWedged(events[1..]);
    }
  }

  /** While every frame finds the `.hero` element, the mouse source behaves
      exactly like the scroll source. */
  lemma {:induction false} MouseWithHeroLikeScroll(g: Guard, events: seq<Event>)
    requires HeroPresent(events)
    ensures Replay(Mouse, g, events) == Replay(Scroll, g, events)
    decreases |events|
  {
    if events != [] {
      assert HeroPresent(events[1..]) by {
        forall i | 0 <= i < |events| - 1 ensures events[1..][i] != FrameRendered(false) {
          assert events[1..][i] == events[i + 1];
        }
      }
      MouseWithHeroLikeScroll(Step(Scroll, g, events[0]), events[1..]);
    }
  }

  /** One source's flag (`scrollScheduled` or `mouseScheduled`) together with
      its callbacks waiting in the browser's animation-frame queue. */
  class FrameGuard {
    const source: Source
    var scheduled: bool
    var queued: nat

    function State(): Guard
      reads this
    {
      Guard(scheduled, queued)
    }

    ghost predicate Valid()
      reads this
    {
      Coherent(State()) && (source == Scroll ==> InStep(State()))
    }

    /** The module-level `let ...Scheduled = false`. */
    constructor (source: Source)
      ensures this.source == source
      ensures Valid() && State() == Idle
    {
      this.source := source;
      scheduled := false;
      queued := 0;
    }

    /** The `scroll` / `mousemove` listener. */
    method Notify()
      requires Valid()
      modifies this
      ensures Valid()
      ensures State() == AfterNotify(old(State()))
      ensures !old(scheduled) ==> scheduled && queued == old(queued) + 1 == 1
      ensures old(scheduled) ==> unchanged(this)
    {
      if !scheduled {
        queued := queued + 1;  // requestAnimationFrame(callback)
        scheduled := true;
      }
    }

    /** The callback body, as far as the flag is concerned: scroll always
        clears it; mouse returns early when `.hero` is absent. It is only run
        by `RunFrame`, once the callback has left the frame queue. */
    method Callback(heroPresent: bool)
      requires queued == 0
      modifies this
      ensures Valid()
      ensures queued == old(queued)
      ensures scheduled == (old(scheduled) && !CallbackClears(source, heroPresent))
    {
      if source == Mouse && !heroPresent {
        return;
      }
      scheduled := false;
    }

    /** The browser renders a frame and runs the pending callback, if any;
        `ran` is the number of callbacks of this source that ran. */
    method RunFrame(heroPresent: bool) returns (ran: nat)
      requires Valid()
      modifies this
      ensures Valid()
      ensures State() == AfterFrame(source, heroPresent, old(State()))
      ensures ran == old(queued) && ran <= 1
      ensures ran == 0 ==> unchanged(this)
      ensures ran == 1 ==> queued == 0 && (scheduled <==> !CallbackClears(source, heroPresent))
    {
      ran := queued;
      if queued == 1 {
        queued := 0;
        Callback(heroPresent);
      }
    }
  }

  /** Ten scroll events before a frame: one update runs, and the next event
      schedules again. */
  method TenScrollEventsOneUpdate()
  {
    var g := new FrameGuard(Scroll);
    var i := 0;
    while i < 10
      invariant 0 <= i <= 10
      invariant g.Valid()
      invariant g.State() == if i == 0 then Idle else Guard(true, 1)
    {
      g.Notify();
      i := i + 1;
    }
    var ran := g.RunFrame(true);
    assert ran == 1 && !g.scheduled;
    g.Notify();
    assert g.queued == 1;
  }

  /** Without `.hero`, the first mouse update leaves the flag set for good. */
  method MouseWithoutHeroWedges()
  {
    var g := new FrameGuard(Mouse);
    g.Notify();
    var ran := g.RunFrame(false);
    assert ran == 1 && g.scheduled;
    g.Notify();
    ran := g.RunFrame(false);
    assert ran == 0 && g.State() == Guard(true, 0);
  }
}
