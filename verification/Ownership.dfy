/**
 * The triple-buffer ownership machine: three buffers rotate through the roles front (being scanned
 * out), render (being drawn) and queued (waiting for the next frame-done interrupt).
 */
module Ownership {

  import opened Wrappers

  datatype State = State(
    front: nat, render: nat, queued: Option<nat>, active: bool,
    requests: nat, completions: nat, rearmAttempts: nat, rearmFailures: nat, generation: nat,
    faulted: bool)

  /** The checks of `assert_valid`. */
  predicate RolesValid(s: State) {
    && s.front < 3 && s.render < 3
    && (s.active ==> s.front != s.render)
    && (s.queued.Some? ==> s.queued.value < 3 && s.queued.value != s.front
                           && (s.active ==> s.queued.value != s.render))
  }

  function Initial(active: bool): State {
    State(0, 1, None, active, 0, 0, 0, 0, 0, false)
  }

  /** The lowest buffer that is neither `a` nor `b`. */
  function Free(a: nat, b: nat): (i: nat)
    ensures i < 3 && i != a && i != b
  {
    if 0 != a && 0 != b then 0 else if 1 != a && 1 != b then 1 else 2
  }

  function AfterQueue(s: State): State {
    if s.faulted then s
    else if !s.active then
      s.(requests := if s.queued != Some(s.render) then s.requests + 1 else s.requests, queued := Some(s.render))
    else
      s.(queued := Some(s.render), requests := s.requests + 1, render := Free(s.front, s.render))
  }

  function AfterStart(s: State): State {
    var front := if s.queued.Some? then s.queued.value else s.front;
    s.(front := front, queued := None, render := if s.render == front then Free(front, front) else s.render,
       active := true, generation := s.generation + 1)
  }

  function AfterComplete(s: State, rearmed: bool): State {
    var t := s.(rearmAttempts := s.rearmAttempts + 1);
    if !rearmed then t.(rearmFailures := s.rearmFailures + 1)
    else if s.faulted || s.queued.None? then t.(generation := s.generation + 1)
    else t.(front := s.queued.value, queued := None, completions := s.completions + 1, generation := s.generation + 1)
  }

  /** The model object, its fields updated in place. */
  class OwnershipModel {
    var front: nat
    var render: nat
    var queued: Option<nat>
    var active: bool
    var requests: nat
    var completions: nat
    var rearmAttempts: nat
    var rearmFailures: nat
    var generation: nat
    var faulted: bool

    function Value(): State
      reads this
    {
      State(front, render, queued, active, requests, completions, rearmAttempts, rearmFailures, generation, faulted)
    }

    constructor (isActive: bool)
      ensures Value() == Initial(isActive)
    {
      front, render, queued, active := 0, 1, None, isActive;
      requests, completions, rearmAttempts, rearmFailures, generation, faulted := 0, 0, 0, 0, 0, false;
    }

    method QueueRender()
      modifies this
      ensures Value() == AfterQueue(old(Value()))
    {
      if faulted {
        return;
      }
      var rendered := render;
      if !active {
        if queued != Some(rendered) {
          requests := requests + 1;
        }
        queued := Some(rendered);
        return;
      }
      queued := Some(rendered);
      requests := requests + 1;
      render := Free(front, rendered);
    }

    /** Starting an active model is refused. */
    method Start() returns (ok: bool)
      modifies this
      ensures ok == !old(active)
      ensures Value() == if ok then AfterStart(old(Value())) else old(Value())
    {
      if active {
        return false;
      }
      if queued.Some? {
        front := queued.value;
      }
      queued := None;
      if render == front {
        render := Free(front, front);
      }
      active := true;
      generation := generation + 1;
      ok := true;
    }

    method Complete(rearmed: bool)
      modifies this
      ensures Value() == AfterComplete(old(Value()), rearmed)
    {
      rearmAttempts := rearmAttempts + 1;
      if !rearmed {
        rearmFailures := rearmFailures + 1;
        return;
      }
      if faulted {
        generation := generation + 1;
        return;
      }
      if queued.Some? {
        front := queued.value;
        queued := None;
        completions := completions + 1;
      }
      generation := generation + 1;
    }
  }

  // ---------------------------------------------------------------------------------------------
  // Runs, with the pixels and the history the code does not keep
  // ---------------------------------------------------------------------------------------------

  type Frame = seq<int>

  /** A frame put on screen, and the number of the commit that produced it. */
  datatype Shown = Shown(frame: Frame, commit: nat)

  datatype World = World(
    s: State,
    contents: seq<Frame>,   // what each buffer holds
    committed: Frame,       // what the newest commit handed over
    commits: nat,           // how many commits there were
    shown: seq<Shown>,      // everything put on screen, in order
    superseded: nat,        // queued frames replaced before they were shown
    adopted: nat,           // queued frames taken over by a start
    starts: nat)

  datatype Event =
    | Draw(frame: Frame)          // the renderer writes the render buffer
    | Queue
    | Done(rearmed: bool)         // the DMA-done interrupt
    | Begin
    | Fault

  /** The interrupt fires only while scanning out; only an idle model is started. */
  predicate Enabled(w: World, e: Event) {
    (e.Done? ==> w.s.active) && (e.Begin? ==> !w.s.active)
  }

  predicate WorldShape(w: World) {
    |w.contents| == 3 && w.s.front < 3 && w.s.render < 3 && (w.s.queued.Some? ==> w.s.queued.value < 3)
  }

  function Genesis(active: bool, contents: seq<Frame>): World {
    World(Initial(active), contents, [], 0, [], 0, 0, 0)
  }

  function Step(w: World, e: Event): World
    requires WorldShape(w)
  {
    match e
    case Draw(frame) => w.(contents := w.contents[w.s.render := frame])
    case Queue =>
      if w.s.faulted then w
      else w.(s := AfterQueue(w.s), committed := w.contents[w.s.render], commits := w.commits + 1,
              superseded := if Replaces(w.s) then w.superseded + 1 else w.superseded)
    case Done(rearmed) =>
      var flips := rearmed && !w.s.faulted && w.s.queued.Some?;
      w.(s := AfterComplete(w.s, rearmed), shown := if flips then w.shown + [Queued(w)] else w.shown)
    case Begin =>
      w.(s := AfterStart(w.s), starts := w.starts + 1,
         shown := if w.s.queued.Some? then w.shown + [Queued(w)] else w.shown,
         adopted := if w.s.queued.Some? then w.adopted + 1 else w.adopted)
    case Fault => w.(s := w.s.(faulted := true))
  }

  /** A queue request that displaces another one. */
  predicate Replaces(s: State) {
    s.queued.Some? && (s.active || s.queued != Some(s.render))
  }

  function Queued(w: World): Shown
    requires WorldShape(w) && w.s.queued.Some?
  {
    Shown(w.contents[w.s.queued.value], w.commits)
  }

  /** A run: states joined by enabled events. */
  predicate IsRun(ws: seq<World>, es: seq<Event>) {
    && |ws| == |es| + 1
    && (forall i :: 0 <= i < |ws| ==> WorldShape(ws[i]))
    && forall i :: 0 <= i < |es| ==> Joined(ws, es, i)
  }

  predicate Joined(ws: seq<World>, es: seq<Event>, i: nat)
    requires i < |es| < |ws| && WorldShape(ws[i])
  {
    Enabled(ws[i], es[i]) && ws[i + 1] == Step(ws[i], es[i])
  }

  predicate Starts(w: World) {
    |w.contents| == 3 && w == Genesis(w.s.active, w.contents)
  }

  // ---------------------------------------------------------------------------------------------
  // What every step keeps
  // ---------------------------------------------------------------------------------------------

  function LastShown(w: World): nat {
    if w.shown == [] then 0 else w.shown[|w.shown| - 1].commit
  }

  predicate Increasing(shown: seq<Shown>) {
    forall i, j :: 0 <= i < j < |shown| ==> shown[i].commit < shown[j].commit
  }

  predicate Inv(w: World) {
    && WorldShape(w) && RolesValid(w.s) && w.s.front != w.s.render
    // accounting
    && w.s.requests == w.s.completions + w.superseded + w.adopted + (if w.s.queued.Some? then 1 else 0)
    && w.s.generation + w.s.rearmFailures == w.s.rearmAttempts + w.starts
    && |w.shown| == w.s.completions + w.adopted
    && w.s.completions + w.s.rearmFailures <= w.s.rearmAttempts && (w.s.rearmAttempts > 0 ==> w.s.active)
    // history
    && Increasing(w.shown) && LastShown(w) <= w.commits
    && (w.shown != [] ==> 1 <= w.shown[0].commit)
    && (w.s.queued.Some? ==> LastShown(w) < w.commits)
    // pixels
    && (w.s.queued.Some? && w.s.active ==> w.contents[w.s.queued.value] == w.committed)
  }

  lemma InvInit(active: bool, contents: seq<Frame>)
    requires |contents| == 3
    ensures Inv(Genesis(active, contents))
  {
  }

  lemma InvStep(w: World, e: Event)
    requires Inv(w) && Enabled(w, e)
    ensures Inv(Step(w, e))
  {
    match e
    case Queue => InvQueue(w);
    case Done(rearmed) => InvDone(w, rearmed);
    case Begin => InvBegin(w);
    case _ =>
  }

  lemma InvQueue(w: World)
    requires Inv(w)
    ensures Inv(Step(w, Queue))
  {
  }

  lemma InvDone(w: World, rearmed: bool)
    requires Inv(w) && w.s.active
    ensures Inv(Step(w, Done(rearmed)))
  {
  }

  lemma InvBegin(w: World)
    requires Inv(w) && !w.s.active
    ensures Inv(Step(w, Begin))
  {
  }

  /** Every state of every run satisfies the invariant. */
  lemma {:induction false} InvRun(ws: seq<World>, es: seq<Event>, i: nat)
    requires IsRun(ws, es) && Starts(ws[0]) && i < |ws|
    ensures Inv(ws[i])
  {
    if i == 0 {
      InvInit(ws[0].s.active, ws[0].contents);
    } else {
      InvRun(ws, es, i - 1);
      assert Joined(ws, es, i - 1);
      InvStep(ws[i - 1], es[i - 1]);
    }
  }

  // ---------------------------------------------------------------------------------------------
  // No tearing
  // ---------------------------------------------------------------------------------------------

  /**
   * No step changes a pixel of the front buffer, and a step changes the queued buffer exactly when
   * it draws something else into a buffer that is still the render buffer; that needs an idle model.
   */
  lemma NoTearing(ws: seq<World>, es: seq<Event>, i: nat)
    requires IsRun(ws, es) && Starts(ws[0]) && i < |es|
    ensures var w, w' := ws[i], ws[i + 1];
            && w'.contents[w.s.front] == w.contents[w.s.front]
            && (w.s.queued.Some? ==>
                  (w'.contents[w.s.queued.value] != w.contents[w.s.queued.value]
                   <==> es[i].Draw? && w.s.queued == Some(w.s.render) && es[i].frame != w.contents[w.s.render]))
            && (w.s.queued == Some(w.s.render) ==> !w.s.active)
  {
    InvRun(ws, es, i);
    assert Joined(ws, es, i);
  }

  /** The commit a state remembers is a particular earlier queue request and the newest one. */
  lemma {:induction false} NewestCommit(ws: seq<World>, es: seq<Event>, i: nat) returns (j: nat)
    requires IsRun(ws, es) && Starts(ws[0]) && i < |ws| && ws[i].commits >= 1
    ensures j < i && es[j] == Queue && !ws[j].s.faulted
    ensures ws[i].commits == ws[j].commits + 1 && ws[i].committed == ws[j].contents[ws[j].s.render]
    ensures forall k :: j < k <= i ==> ws[k].commits == ws[i].commits
  {
    if i == 0 {
      assert false;
    } else {
      var w, e := ws[i - 1], es[i - 1];
      assert Joined(ws, es, i - 1);
      if e == Queue && !w.s.faulted {
        j := i - 1;
      } else {
        j := NewestCommit(ws, es, i - 1);
      }
    }
  }

  /**
   * What a frame-done interrupt puts on screen is exactly the frame of the newest commit, as it
   * was when it was queued, even if the renderer has drawn since.
   */
  lemma CompletionShowsNewestCommit(ws: seq<World>, es: seq<Event>, i: nat) returns (j: nat)
    requires IsRun(ws, es) && Starts(ws[0]) && i < |es|
    requires es[i].Done? && ws[i + 1].s.completions > ws[i].s.completions
    ensures j < i && es[j] == Queue && forall k :: j < k <= i ==> ws[k].commits == ws[j].commits + 1
    ensures ws[i + 1].shown == ws[i].shown + [Shown(ws[j].contents[ws[j].s.render], ws[j].commits + 1)]
    ensures ws[i + 1].contents[ws[i + 1].s.front] == ws[j].contents[ws[j].s.render]
  {
    InvRun(ws, es, i);
    assert Joined(ws, es, i);
    j := NewestCommit(ws, es, i);
  }

  /** The commits put on screen only ever get newer. */
  lemma NeverGoesBack(ws: seq<World>, es: seq<Event>, i: nat)
    requires IsRun(ws, es) && Starts(ws[0]) && i < |ws|
    ensures Increasing(ws[i].shown)
    ensures forall k :: 0 <= k < |ws[i].shown| ==> 1 <= ws[i].shown[k].commit <= ws[i].commits
  {
    InvRun(ws, es, i);
    var shown := ws[i].shown;
    forall k | 0 <= k < |shown|
      ensures 1 <= shown[k].commit <= ws[i].commits
    {
      assert k == 0 || shown[0].commit < shown[k].commit;
      assert k == |shown| - 1 || shown[k].commit < shown[|shown| - 1].commit;
    }
  }

  /** The accounting identities, over every run. */
  lemma Accounting(ws: seq<World>, es: seq<Event>, i: nat)
    requires IsRun(ws, es) && Starts(ws[0]) && i < |ws|
    ensures var w := ws[i];
            && w.s.requests == w.s.completions + w.superseded + w.adopted + (if w.s.queued.Some? then 1 else 0)
            && w.s.generation == w.s.rearmAttempts - w.s.rearmFailures + w.starts
            && |w.shown| == w.s.completions + w.adopted
            && RolesValid(w.s) && w.s.front != w.s.render
  {
    InvRun(ws, es, i);
  }

  // ---------------------------------------------------------------------------------------------
  // Faults
  // ---------------------------------------------------------------------------------------------

  predicate SameRoles(s: State, t: State) {
    && s.front == t.front && s.render == t.render && s.queued == t.queued
    && s.requests == t.requests && s.completions == t.completions
  }

  /** Same roles, same flip counts, same screen, still faulted. */
  predicate Frozen(w: World, w': World)
    requires WorldShape(w) && WorldShape(w')
  {
    && SameRoles(w.s, w'.s) && w'.shown == w.shown && w'.s.faulted && w'.s.active
    && w'.contents[w.s.front] == w.contents[w.s.front]
  }

  /** Once an active model has faulted, roles, flip counts and the screen never change again. */
  lemma {:induction false} FaultFreezes(ws: seq<World>, es: seq<Event>, i: nat, j: nat)
    requires IsRun(ws, es) && Starts(ws[0]) && i <= j < |ws| && ws[i].s.faulted && ws[i].s.active
    ensures Frozen(ws[i], ws[j])
    decreases j
  {
    if i < j {
      FaultFreezes(ws, es, i, j - 1);
      InvRun(ws, es, j - 1);
      assert Joined(ws, es, j - 1);
      FrozenStep(ws[j - 1], es[j - 1]);
      FrozenTransitive(ws[i], ws[j - 1], ws[j]);
    }
  }

  lemma FrozenTransitive(a: World, b: World, c: World)
    requires WorldShape(a) && WorldShape(b) && WorldShape(c) && Frozen(a, b) && Frozen(b, c)
    ensures Frozen(a, c)
  {
  }

  lemma FrozenStep(w: World, e: Event)
    requires Inv(w) && Enabled(w, e) && w.s.faulted && w.s.active && WorldShape(Step(w, e))
    ensures Frozen(w, Step(w, e))
  {
  }

  /**
   * Exactly when a fault freezes the roles: an idle model with a frame queued still adopts it when
   * it is started; every other faulted model keeps its roles and flip counts for good.
   */
  lemma {:induction false} FaultKeepsRoles(ws: seq<World>, es: seq<Event>, i: nat, j: nat)
    requires IsRun(ws, es) && Starts(ws[0]) && i <= j < |ws| && ws[i].s.faulted
    ensures SameRoles(ws[i].s, ws[j].s) <==> ws[i].s.active || ws[i].s.queued.None? || !ws[j].s.active
    ensures ws[j].s.faulted && (ws[i].s.active ==> ws[j].s.active)
    ensures !SameRoles(ws[i].s, ws[j].s) ==> ws[j].s.active && ws[j].s.queued.None?
    decreases j
  {
    if i < j {
      FaultKeepsRoles(ws, es, i, j - 1);
      InvRun(ws, es, j - 1);
      assert Joined(ws, es, j - 1);
    }
  }

  // ---------------------------------------------------------------------------------------------
  // Frames adopted by a start
  // ---------------------------------------------------------------------------------------------

  /** The renderer keeps off a buffer that is queued; in an active model that is automatic. */
  predicate Polite(w: World, e: Event) {
    e.Draw? ==> w.s.queued != Some(w.s.render)
  }

  /** What was drawn last among the events from `from` up to `i`, or `frame` if nothing was. */
  function LastDrawn(es: seq<Event>, from: nat, i: nat, frame: Frame): Frame
    requires i <= |es|
    decreases i
  {
    if i <= from then frame
    else if es[i - 1].Draw? then es[i - 1].frame
    else LastDrawn(es, from, i - 1, frame)
  }

  /** An idle model keeps its render buffer, and queues nothing else. */
  lemma {:induction false} IdleRoles(ws: seq<World>, es: seq<Event>, i: nat)
    requires IsRun(ws, es) && Starts(ws[0]) && i < |ws| && !ws[i].s.active
    ensures ws[i].s.queued.Some? ==> ws[i].s.queued == Some(ws[i].s.render)
    ensures forall k :: 0 <= k <= i ==> !ws[k].s.active && ws[k].s.render == ws[i].s.render
  {
    if i > 0 {
      assert Joined(ws, es, i - 1);
      IdleRoles(ws, es, i - 1);
    }
  }

  lemma {:induction false} IdleDrawing(ws: seq<World>, es: seq<Event>, j: nat, i: nat)
    requires IsRun(ws, es) && Starts(ws[0]) && j < i < |ws| && !ws[i].s.active
    requires es[j] == Queue && ws[i].commits == ws[j].commits + 1 == ws[j + 1].commits
    ensures ws[i].contents[ws[i].s.render] == LastDrawn(es, j + 1, i, ws[j].contents[ws[j].s.render])
    decreases i
  {
    IdleRoles(ws, es, i);
    assert Joined(ws, es, i - 1);
    if i == j + 1 {
      assert Joined(ws, es, j);
    } else {
      CommitsGrow(ws, es, j + 1, i - 1);
      IdleDrawing(ws, es, j, i - 1);
    }
  }

  lemma {:induction false} CommitsGrow(ws: seq<World>, es: seq<Event>, i: nat, j: nat)
    requires IsRun(ws, es) && i <= j < |ws|
    ensures ws[i].commits <= ws[j].commits
    decreases j
  {
    if i < j {
      assert Joined(ws, es, j - 1);
      CommitsGrow(ws, es, i, j - 1);
    }
  }

  /**
   * Exactly what starting an idle model shows: the frame drawn last since the newest commit, or the
   * committed frame if nothing has been drawn since.
   */
  lemma StartShows(ws: seq<World>, es: seq<Event>, i: nat) returns (j: nat)
    requires IsRun(ws, es) && Starts(ws[0]) && i < |ws| && !ws[i].s.active && ws[i].s.queued.Some?
    ensures j < i && es[j] == Queue && ws[i].committed == ws[j].contents[ws[j].s.render]
    ensures forall k :: j < k <= i ==> ws[k].commits == ws[i].commits
    ensures Queued(ws[i]) == Shown(LastDrawn(es, j + 1, i, ws[i].committed), ws[i].commits)
  {
    InvRun(ws, es, i);
    j := NewestCommit(ws, es, i);
    IdleRoles(ws, es, i);
    IdleDrawing(ws, es, j, i);
  }

  /** If every draw was polite, a start, too, shows exactly what the newest commit handed over. */
  lemma {:induction false} PoliteRunsShowCommits(ws: seq<World>, es: seq<Event>, i: nat)
    requires IsRun(ws, es) && Starts(ws[0]) && i < |ws|
    requires forall k :: 0 <= k < |es| ==> Polite(ws[k], es[k])
    ensures ws[i].s.queued.Some? ==> Queued(ws[i]) == Shown(ws[i].committed, ws[i].commits)
  {
    if i > 0 {
      PoliteRunsShowCommits(ws, es, i - 1);
      InvRun(ws, es, i - 1);
      assert Polite(ws[i - 1], es[i - 1]) && Joined(ws, es, i - 1);
    }
  }

  /** Without politeness the promise fails: an idle model shows a frame that was never committed. */
  lemma ImpoliteDrawIsShown(contents: seq<Frame>, a: Frame, b: Frame)
    requires |contents| == 3 && a != b
    ensures var w0 := Genesis(false, contents);
            var w1 := Step(w0, Draw(a));
            var w2 := Step(w1, Queue);
            var w3 := Step(w2, Draw(b));
            var w4 := Step(w3, Begin);
            && Enabled(w0, Draw(a)) && Enabled(w1, Queue) && Enabled(w2, Draw(b)) && Enabled(w3, Begin)
            && !Polite(w2, Draw(b)) && w4.committed == a && w4.shown == [Shown(b, 1)]
  {
  }

  // ---------------------------------------------------------------------------------------------
  // Counters only grow
  // ---------------------------------------------------------------------------------------------

  /** `w'` can only be a later state than `w`. */
  predicate Later(w: World, w': World) {
    && w.s.requests <= w'.s.requests && w.s.completions <= w'.s.completions
    && w.s.rearmAttempts <= w'.s.rearmAttempts && w.s.rearmFailures <= w'.s.rearmFailures
    && w.s.generation <= w'.s.generation && w.adopted <= w'.adopted && w.shown <= w'.shown
  }

  lemma {:induction false} RunsMoveForward(ws: seq<World>, es: seq<Event>, i: nat, j: nat)
    requires IsRun(ws, es) && i <= j < |ws|
    ensures Later(ws[i], ws[j])
    decreases j
  {
    if i < j {
      RunsMoveForward(ws, es, i, j - 1);
      assert Joined(ws, es, j - 1);
    }
  }
}
