/** The application driver: the global loop flag with `noLoop`, `loop` and
    `isLooping`, the one-time setup, and the main loop that polls input,
    handles quit and save requests, calls the sketch's `draw` while looping is
    enabled and presents every frame. The window, the clock and the image
    writer are collaborators: what they report is passed in, and what the
    driver asks of them is recorded in a trace of events. */
module Core {
  import opened Controller
  import Framebuffer
  import Bresenham

  /** The module-level `_loop_enabled` flag, true when the module loads. */
  class LoopControl {
    var enabled: bool

    constructor ()
      ensures enabled
    {
      enabled := true;
    }

    /** `noLoop`: stop calling `draw`; calling it again changes nothing. */
    method NoLoop()
      modifies this
      ensures !enabled
    {
      enabled := false;
    }

    /** `loop`: resume calling `draw`; calling it again changes nothing. */
    method Loop()
      modifies this
      ensures enabled
    {
      enabled := true;
    }

    /** `isLooping`: reports the flag and changes nothing. */
    method IsLooping() returns (looping: bool)
      ensures looping == enabled
    {
      looping := enabled;
    }

    /** The `noLoop()` or `loop()` call a sketch callback ends with, if any. */
    method Perform(call: LoopCall)
      modifies this
      ensures enabled == AfterCall(call, old(enabled))
    {
      match call
      case Untouched =>
      case CallsNoLoop => NoLoop();
      case CallsLoop => Loop();
    }
  }

  /** What one run of a sketch callback does to the loop flag: nothing, or
      (last of all) `noLoop()` or `loop()`. */
  datatype LoopCall = Untouched | CallsNoLoop | CallsLoop

  function AfterCall(call: LoopCall, enabled: bool): bool
  {
    match call
    case Untouched => enabled
    case CallsNoLoop => false
    case CallsLoop => true
  }

  /** The colour of every cell of a buffer. */
  type Picture = (int, int) -> Framebuffer.RGB

  /** What a fresh buffer shows: every cell black. */
  function Blank(): Picture
  {
    (i: int, j: int) => Framebuffer.RGB(0, 0, 0)
  }

  /** A sketch, seen through what its callbacks do: `setup` sets the loop flag
      as `onSetup` says and turns the picture of the w-by-h buffer it receives
      into `setupPaint(w, h, received)`; `draw` at each frame number sets the
      flag as `onDraw` says. */
  datatype Sketch = Sketch(onSetup: LoopCall, setupPaint: (nat, nat, Picture) -> Picture,
                           onDraw: nat -> LoopCall)

  /** The calls the driver makes to its collaborators and callbacks, each
      tagged with the frame number of the iteration that makes it. */
  datatype Event =
    | Setup(width: int, height: int)
    | Save(frame: nat, base: string, saved: bool)
    | Draw(frame: nat)
    | Present(frame: nat)
    | Shutdown
  {
    /** A call made inside a main-loop iteration, so one with a frame number. */
    predicate InFrame()
    {
      Save? || Draw? || Present?
    }
  }

  predicate Quits(ev: EventRecord)
  {
    HandleInput(ev).quit
  }

  /** The first poll at or after `i` that asks to quit, or `|polls|` if none does. */
  function FirstQuit(polls: seq<EventRecord>, i: nat): (q: nat)
    requires i <= |polls|
    ensures i <= q <= |polls|
    ensures forall k :: i <= k < q ==> !Quits(polls[k])
    ensures q < |polls| ==> Quits(polls[q])
    decreases |polls| - i
  {
    if i == |polls| || Quits(polls[i]) then i else FirstQuit(polls, i + 1)
  }

  /** The flag after the iteration of frame `k`: only a `draw` that runs can
      change it. */
  function NextFlag(sketch: Sketch, enabled: bool, k: nat): bool
  {
    if enabled then AfterCall(sketch.onDraw(k), enabled) else enabled
  }

  /** The flag when the iteration of frame `k` starts, given the flag
      `enabled` after setup. */
  function FlagAt(sketch: Sketch, enabled: bool, k: nat): bool
  {
    if k == 0 then enabled else NextFlag(sketch, FlagAt(sketch, enabled, k - 1), k - 1)
  }

  /** The calls of one non-quit iteration: the save request if any, then
      `draw` when looping, then the presentation. */
  function Iteration(ev: EventRecord, k: nat, enabled: bool, title: string, persist: nat -> bool): seq<Event>
  {
    (if HandleInput(ev).save then [Save(k, title, persist(k))] else []) +
    ((if enabled then [Draw(k)] else []) + [Present(k)])
  }

  /** The calls of the main loop from frame `i` on, with flag `enabled`:
      iterations until the first poll that asks to quit. `persist(k)` tells
      whether writing the image requested at frame `k` succeeds. */
  function Session(polls: seq<EventRecord>, i: nat, enabled: bool, sketch: Sketch, title: string,
                   persist: nat -> bool): seq<Event>
    requires i <= |polls|
    decreases |polls| - i
  {
    if i == |polls| || Quits(polls[i]) then []
    else Iteration(polls[i], i, enabled, title, persist) +
         Session(polls, i + 1, NextFlag(sketch, enabled, i), sketch, title, persist)
  }

  /** The calls of the first `k` iterations, each with the flag it starts with. */
  function SessionPrefix(polls: seq<EventRecord>, k: nat, enabled: bool, sketch: Sketch, title: string,
                         persist: nat -> bool): seq<Event>
    requires k <= |polls|
  {
    if k == 0 then []
    else SessionPrefix(polls, k - 1, enabled, sketch, title, persist) +
         Iteration(polls[k - 1], k - 1, FlagAt(sketch, enabled, k - 1), title, persist)
  }

  /** Up to the first quit, the iterations done so far followed by the
      session from there make up the whole session. */
  lemma {:induction false} PrefixThenSession(polls: seq<EventRecord>, k: nat, enabled: bool, sketch: Sketch,
                                             title: string, persist: nat -> bool)
    requires k <= FirstQuit(polls, 0)
    ensures SessionPrefix(polls, k, enabled, sketch, title, persist) +
      Session(polls, k, FlagAt(sketch, enabled, k), sketch, title, persist) ==
      Session(polls, 0, enabled, sketch, title, persist)
  {
    if k > 0 {
      PrefixThenSession(polls, k - 1, enabled, sketch, title, persist);
      SessionStep(polls, k - 1, FlagAt(sketch, enabled, k - 1), sketch, title, persist);
      Bresenham.AppendAssoc(SessionPrefix(polls, k - 1, enabled, sketch, title, persist),
                  Iteration(polls[k - 1], k - 1, FlagAt(sketch, enabled, k - 1), title, persist),
                  Session(polls, k, FlagAt(sketch, enabled, k), sketch, title, persist));
    }
  }

  /** A non-quit iteration followed by the rest of the session. */
  lemma SessionStep(polls: seq<EventRecord>, k: nat, enabled: bool, sketch: Sketch, title: string,
                    persist: nat -> bool)
    requires k < |polls| && !Quits(polls[k])
    ensures Session(polls, k, enabled, sketch, title, persist) ==
      Iteration(polls[k], k, enabled, title, persist) +
      Session(polls, k + 1, NextFlag(sketch, enabled, k), sketch, title, persist)
  {
  }

  /** The whole run: setup on the new framebuffer, the main loop, shutdown. */
  function RunTrace(polls: seq<EventRecord>, width: nat, height: nat, enabled: bool, sketch: Sketch,
                    title: string, persist: nat -> bool): seq<Event>
  {
    [Setup(width, height)] + Session(polls, 0, AfterCall(sketch.onSetup, enabled), sketch, title, persist) + [Shutdown]
  }

  /** `_handle_save_request`: asks the image writer to save under the base
      name `title`; a failure is reported and swallowed. */
  method HandleSaveRequest(title: string, frame: nat, persist: nat -> bool) returns (e: Event)
    ensures e == Save(frame, title, persist(frame))
  {
    var saved := persist(frame);
    e := Save(frame, title, saved);
  }

  /** `_handle_input_events`: decides whether to keep running, handling a
      save request first when not quitting. */
  method HandleInputEvents(ev: EventRecord, title: string, frame: nat, persist: nat -> bool)
    returns (running: bool, events: seq<Event>)
    ensures running <==> !ev.quitEvent && KeyEscape !in ev.keyDown
    ensures running && KeyS in ev.keyDown ==> events == [Save(frame, title, persist(frame))]
    ensures !running || KeyS !in ev.keyDown ==> events == []
  {
    var input := HandleInput(ev);
    if input.quit {
      return false, [];
    }
    events := [];
    if input.save {
      var e := HandleSaveRequest(title, frame, persist);
      events := [e];
    }
    running := true;
  }

  /** `_render_frame`: calls `draw` with the frame number when looping is
      enabled, then presents the framebuffer. */
  method RenderFrame(sketch: Sketch, frame: nat, control: LoopControl) returns (events: seq<Event>)
    modifies control
    ensures events == (if old(control.enabled) then [Draw(frame)] else []) + [Present(frame)]
    ensures control.enabled == NextFlag(sketch, old(control.enabled), frame)
  {
    events := [];
    if control.enabled {
      events := [Draw(frame)];
      control.Perform(sketch.onDraw(frame));
    }
    events := events + [Present(frame)];
  }

  /** `_run_main_loop` over the polls the window reports: one iteration per
      poll until the first that asks to quit. */
  method RunMainLoop(polls: seq<EventRecord>, sketch: Sketch, title: string, persist: nat -> bool,
                     control: LoopControl)
    returns (trace: seq<Event>, frameCount: nat)
    requires exists k :: 0 <= k < |polls| && Quits(polls[k])
    modifies control
    ensures frameCount == FirstQuit(polls, 0)
    ensures trace == Session(polls, 0, old(control.enabled), sketch, title, persist)
    ensures control.enabled == FlagAt(sketch, old(control.enabled), frameCount)
  {
    ghost var enabled0 := control.enabled;
    ghost var q := FirstQuit(polls, 0);
    ghost var w :| 0 <= w < |polls| && Quits(polls[w]);
    assert q <= w;
    frameCount := 0;
    trace := [];
    var running := true;
    while running
      invariant frameCount <= q < |polls|
      invariant control.enabled == FlagAt(sketch, enabled0, frameCount)
      invariant trace == SessionPrefix(polls, frameCount, enabled0, sketch, title, persist)
      decreases q - frameCount
    {
      var events;
      running, events := HandleInputEvents(polls[frameCount], title, frameCount, persist);
      if !running {
        assert Quits(polls[frameCount]);
        break;
      }
      assert frameCount < q by {
        assert !Quits(polls[frameCount]);
      }
      var rendered := RenderFrame(sketch, frameCount, control);
      trace := trace + (events + rendered);
      frameCount := frameCount + 1;
    }
    PrefixThenSession(polls, frameCount, enabled0, sketch, title, persist);
  }

  /** `_initialize_application`: a fresh, black width-by-height framebuffer,
      handed once to `setup`, which paints on it and may switch looping. */
  method InitializeApplication(sketch: Sketch, width: nat, height: nat, control: LoopControl)
    returns (model: Framebuffer.Model, events: seq<Event>)
    modifies control
    ensures fresh(model) && model.Valid() && model.w == width && model.h == height
    ensures forall i, j :: 0 <= i < width && 0 <= j < height ==>
      model.fb[i, j] == sketch.setupPaint(width, height, Blank())(i, j)
    ensures events == [Setup(width, height)]
    ensures control.enabled == AfterCall(sketch.onSetup, old(control.enabled))
  {
    model := new Framebuffer.Model(width, height);
    assert forall i, j :: 0 <= i < width && 0 <= j < height ==> model.fb[i, j] == Blank()(i, j);
    var painted := sketch.setupPaint(width, height, Blank());
    forall i, j | 0 <= i < width && 0 <= j < height {
      model.fb[i, j] := painted(i, j);
    }
    events := [Setup(width, height)];
    control.Perform(sketch.onSetup);
  }

  /** `run`: initialise, run the main loop until quit, shut down. */
  method Run(sketch: Sketch, polls: seq<EventRecord>, width: nat, height: nat, title: string,
             persist: nat -> bool, control: LoopControl)
    returns (model: Framebuffer.Model, trace: seq<Event>)
    requires exists k :: 0 <= k < |polls| && Quits(polls[k])
    modifies control
    ensures fresh(model) && model.Valid() && model.w == width && model.h == height
    ensures trace == RunTrace(polls, width, height, old(control.enabled), sketch, title, persist)
  {
    var setupEvents;
    model, setupEvents := InitializeApplication(sketch, width, height, control);
    var loopEvents, frames := RunMainLoop(polls, sketch, title, persist, control);
    trace := setupEvents + loopEvents + [Shutdown];
  }

  /** Every call in `s` is made inside an iteration whose frame lies in [lo, hi). */
  predicate FramesWithin(s: seq<Event>, lo: int, hi: int)
  {
    forall a :: 0 <= a < |s| ==> s[a].InFrame() && lo <= s[a].frame < hi
  }

  /** Frame numbers never decrease along `s`, and no two `draw` calls get the
      same frame number. */
  predicate FramesOrdered(s: seq<Event>)
  {
    (forall a, b :: 0 <= a < b < |s| && s[a].InFrame() && s[b].InFrame() ==> s[a].frame <= s[b].frame) &&
    (forall a, b :: 0 <= a < b < |s| && s[a].Draw? && s[b].Draw? ==> s[a].frame < s[b].frame)
  }

  /** Each save request is followed at once by the `draw` call or the
      presentation of the same frame. */
  predicate SavesThenRender(s: seq<Event>)
  {
    forall a :: 0 <= a < |s| && s[a].Save? ==>
      a + 1 < |s| && (s[a + 1] == Draw(s[a].frame) || s[a + 1] == Present(s[a].frame))
  }

  /** The shape of one iteration's calls. */
  lemma IterationShape(ev: EventRecord, k: nat, enabled: bool, title: string, persist: nat -> bool)
    ensures var it := Iteration(ev, k, enabled, title, persist);
      FramesWithin(it, k, k + 1) && FramesOrdered(it) && SavesThenRender(it) &&
      |it| > 0 && it[|it| - 1] == Present(k)
  {
    var it := Iteration(ev, k, enabled, title, persist);
    assert forall a :: 0 <= a < |it| ==> it[a].InFrame() && it[a].frame == k;
    assert forall a :: 0 <= a < |it| && it[a].Save? ==> a == 0;
  }

  /** Which calls one iteration makes: all of them for its own frame; the
      presentation always, `draw` exactly when looping, the save exactly
      when requested. */
  lemma IterationCalls(ev: EventRecord, k: nat, enabled: bool, title: string, persist: nat -> bool)
    ensures var it := Iteration(ev, k, enabled, title, persist);
      FramesWithin(it, k, k + 1) && Present(k) in it &&
      (Draw(k) in it <==> enabled) && (Save(k, title, persist(k)) in it <==> HandleInput(ev).save)
  {
    var it := Iteration(ev, k, enabled, title, persist);
    assert forall a :: 0 <= a < |it| ==> it[a].InFrame() && it[a].frame == k;
    assert it[|it| - 1] == Present(k);
  }

  /** The three trace properties survive putting one frame range after another. */
  lemma {:induction false} ConcatFrames(x: seq<Event>, y: seq<Event>, lo: int, mid: int, hi: int)
    requires lo <= mid <= hi
    requires FramesWithin(x, lo, mid) && FramesOrdered(x) && SavesThenRender(x)
    requires FramesWithin(y, mid, hi) && FramesOrdered(y) && SavesThenRender(y)
    requires |x| > 0 ==> !x[|x| - 1].Save?
    ensures FramesWithin(x + y, lo, hi) && FramesOrdered(x + y) && SavesThenRender(x + y)
  {
    var s := x + y;
    forall a | 0 <= a < |s|
      ensures s[a].InFrame() && lo <= s[a].frame < hi
    {
      if a >= |x| {
        assert s[a] == y[a - |x|];
      }
    }
    forall a, b | 0 <= a < b < |s| && s[a].InFrame() && s[b].InFrame()
      ensures s[a].frame <= s[b].frame
      ensures s[a].Draw? && s[b].Draw? ==> s[a].frame < s[b].frame
    {
      if b >= |x| {
        assert s[b] == y[b - |x|];
        if a >= |x| {
          assert s[a] == y[a - |x|];
        }
      }
    }
    forall a | 0 <= a < |s| && s[a].Save?
      ensures a + 1 < |s| && (s[a + 1] == Draw(s[a].frame) || s[a + 1] == Present(s[a].frame))
    {
      if a >= |x| {
        assert s[a] == y[a - |x|];
        assert s[a + 1] == y[a + 1 - |x|];
      }
    }
  }

  /** Every call of the main loop belongs to a frame from `i` up to, not
      including, the first quit; frame numbers never decrease, `draw` never
      sees the same frame number twice, and every save request is followed
      at once by the rendering of its own frame. */
  lemma {:induction false} SessionFrames(polls: seq<EventRecord>, i: nat, enabled: bool, sketch: Sketch,
                                         title: string, persist: nat -> bool)
    requires i <= |polls|
    ensures var s := Session(polls, i, enabled, sketch, title, persist);
      FramesWithin(s, i, FirstQuit(polls, i)) && FramesOrdered(s) && SavesThenRender(s)
    decreases |polls| - i
  {
    if !(i == |polls| || Quits(polls[i])) {
      var it := Iteration(polls[i], i, enabled, title, persist);
      var rest := Session(polls, i + 1, NextFlag(sketch, enabled, i), sketch, title, persist);
      IterationShape(polls[i], i, enabled, title, persist);
      SessionFrames(polls, i + 1, NextFlag(sketch, enabled, i), sketch, title, persist);
      ConcatFrames(it, rest, i, i + 1, FirstQuit(polls, i));
    }
  }

  /** Every call of the main loop from frame `i` on belongs to a frame from
      `i` up to, not including, the first quit. */
  lemma {:induction false} SessionWithin(polls: seq<EventRecord>, i: nat, enabled: bool, sketch: Sketch,
                                         title: string, persist: nat -> bool)
    requires i <= |polls|
    ensures FramesWithin(Session(polls, i, enabled, sketch, title, persist), i, FirstQuit(polls, i))
    decreases |polls| - i
  {
    if !(i == |polls| || Quits(polls[i])) {
      var it := Iteration(polls[i], i, enabled, title, persist);
      var rest := Session(polls, i + 1, NextFlag(sketch, enabled, i), sketch, title, persist);
      SessionWithin(polls, i + 1, NextFlag(sketch, enabled, i), sketch, title, persist);
      assert forall a :: 0 <= a < |it| ==> it[a].InFrame() && it[a].frame == i;
      forall a | 0 <= a < |it + rest|
        ensures (it + rest)[a].InFrame() && i <= (it + rest)[a].frame < FirstQuit(polls, i)
      {
        if a >= |it| {
          assert (it + rest)[a] == rest[a - |it|];
        }
      }
    }
  }

  /** The image writer is asked to save at frame `k` exactly when the poll of
      a frame before the first quit requested it. */
  lemma {:induction false} SessionSaves(polls: seq<EventRecord>, i: nat, enabled: bool, sketch: Sketch,
                                        title: string, persist: nat -> bool, k: nat)
    requires i <= |polls|
    ensures Save(k, title, persist(k)) in Session(polls, i, enabled, sketch, title, persist) <==>
      i <= k < FirstQuit(polls, i) && HandleInput(polls[k]).save
    decreases |polls| - i
  {
    if !(i == |polls| || Quits(polls[i])) {
      var it := Iteration(polls[i], i, enabled, title, persist);
      var rest := Session(polls, i + 1, NextFlag(sketch, enabled, i), sketch, title, persist);
      SessionSaves(polls, i + 1, NextFlag(sketch, enabled, i), sketch, title, persist, k);
      SessionWithin(polls, i + 1, NextFlag(sketch, enabled, i), sketch, title, persist);
      IterationCalls(polls[i], i, enabled, title, persist);
      if k == i {
        assert Save(k, title, persist(k)) !in rest by {
          forall a | 0 <= a < |rest| ensures rest[a] != Save(k, title, persist(k)) {
          }
        }
      }
    }
  }

  /** Every iteration before the first quit presents the framebuffer. */
  lemma {:induction false} SessionPresentsEveryFrame(polls: seq<EventRecord>, i: nat, enabled: bool,
                                                     sketch: Sketch, title: string, persist: nat -> bool, k: nat)
    requires i <= |polls| && i <= k < FirstQuit(polls, i)
    ensures Present(k) in Session(polls, i, enabled, sketch, title, persist)
    decreases k - i
  {
    SessionStep(polls, i, enabled, sketch, title, persist);
    IterationCalls(polls[i], i, enabled, title, persist);
    if k > i {
      SessionPresentsEveryFrame(polls, i + 1, NextFlag(sketch, enabled, i), sketch, title, persist, k);
    }
  }

  /** An iteration before the first quit calls `draw` exactly when the flag
      is set at its frame. */
  lemma {:induction false} SessionDrawsIffLooping(polls: seq<EventRecord>, i: nat, enabled0: bool,
                                                  sketch: Sketch, title: string, persist: nat -> bool, k: nat)
    requires i <= |polls| && i <= k < FirstQuit(polls, i)
    ensures Draw(k) in Session(polls, i, FlagAt(sketch, enabled0, i), sketch, title, persist) <==>
      FlagAt(sketch, enabled0, k)
    decreases k - i
  {
    var e := FlagAt(sketch, enabled0, i);
    var it := Iteration(polls[i], i, e, title, persist);
    var rest := Session(polls, i + 1, FlagAt(sketch, enabled0, i + 1), sketch, title, persist);
    assert Session(polls, i, e, sketch, title, persist) == it + rest by {
      assert FlagAt(sketch, enabled0, i + 1) == NextFlag(sketch, e, i);
      SessionStep(polls, i, e, sketch, title, persist);
    }
    if k == i {
      assert Draw(k) in it <==> e by {
        IterationCalls(polls[i], i, e, title, persist);
      }
      assert Draw(k) !in rest by {
        SessionWithin(polls, i + 1, FlagAt(sketch, enabled0, i + 1), sketch, title, persist);
        forall a | 0 <= a < |rest| ensures rest[a] != Draw(k) {
          assert rest[a].frame > i;
        }
      }
    } else {
      assert Draw(k) in rest <==> FlagAt(sketch, enabled0, k) by {
        SessionDrawsIffLooping(polls, i + 1, enabled0, sketch, title, persist, k);
      }
      assert Draw(k) !in it by {
        IterationCalls(polls[i], i, e, title, persist);
        forall a | 0 <= a < |it| ensures it[a] != Draw(k) {
        }
      }
    }
  }

  /** Once `draw` has switched looping off, it stays off: no sketch code runs
      that could switch it back on. */
  lemma {:induction false} NoLoopIsFinal(sketch: Sketch, enabled: bool, k: nat, m: nat)
    requires k <= m && !FlagAt(sketch, enabled, k)
    ensures !FlagAt(sketch, enabled, m)
    decreases m - k
  {
    if k < m {
      NoLoopIsFinal(sketch, enabled, k, m - 1);
    }
  }

  /** A sketch whose `setup` calls `noLoop()` is drawn by `setup` alone:
      `draw` is never called, yet every frame up to the quit is presented. */
  lemma StaticSketch(polls: seq<EventRecord>, width: nat, height: nat, enabled: bool, sketch: Sketch,
                     title: string, persist: nat -> bool)
    requires sketch.onSetup == CallsNoLoop
    ensures var t := RunTrace(polls, width, height, enabled, sketch, title, persist);
      (forall k: nat :: Draw(k) !in t) &&
      (forall k: nat :: k < FirstQuit(polls, 0) ==> Present(k) in t)
  {
    var s := Session(polls, 0, false, sketch, title, persist);
    var t := RunTrace(polls, width, height, enabled, sketch, title, persist);
    assert t == [Setup(width, height)] + s + [Shutdown];
    SessionFrames(polls, 0, false, sketch, title, persist);
    forall k: nat
      ensures Draw(k) !in t
      ensures k < FirstQuit(polls, 0) ==> Present(k) in t
    {
      if k < FirstQuit(polls, 0) {
        NoLoopIsFinal(sketch, false, 0, k);
        SessionPresentsEveryFrame(polls, 0, false, sketch, title, persist, k);
        SessionDrawsIffLooping(polls, 0, false, sketch, title, persist, k);
      } else {
        assert Draw(k) !in s by {
          forall a | 0 <= a < |s| ensures s[a] != Draw(k) {
          }
        }
      }
    }
  }

  /** `setup` runs exactly once, first, and the run ends with shutdown; every
      call in between is made by a main-loop iteration. */
  lemma SetupFirstAndOnce(polls: seq<EventRecord>, width: nat, height: nat, enabled: bool, sketch: Sketch,
                          title: string, persist: nat -> bool)
    ensures var t := RunTrace(polls, width, height, enabled, sketch, title, persist);
      t[0] == Setup(width, height) && t[|t| - 1] == Shutdown &&
      forall a :: 0 < a < |t| - 1 ==> t[a].InFrame()
  {
    var s := Session(polls, 0, AfterCall(sketch.onSetup, enabled), sketch, title, persist);
    SessionFrames(polls, 0, AfterCall(sketch.onSetup, enabled), sketch, title, persist);
    var t := RunTrace(polls, width, height, enabled, sketch, title, persist);
    assert t == [Setup(width, height)] + s + [Shutdown];
    forall a | 0 < a < |t| - 1 ensures t[a].InFrame() {
      assert t[a] == s[a - 1];
    }
  }
}
