/**
 The event engine of src/state_machine/sm.cpp and its queue, src/state_machine/sm_fifo.cpp.

 Callbacks may post events while an event is being processed.  The code queues such events and, when the
 current event is over, processes the next one by a recursive call.  The theorems say that this mutually
 recursive engine behaves exactly like a plain first-in first-out work loop.
 */
module SmEngine {
  import opened Options
  import opened SmTable

  /** An event posted with its data. */
  datatype Post = Post(event: int, data: nat)

  /** sm_info_t, without the constant application handle. */
  datatype Info = Info(oldState: int, newState: int, event: int, data: nat)

  /** A callback invocation, as the application sees it. */
  datatype Call =
    | Notify(state: int, event: int)
    | Leave(func: nat, info: Info)
    | Act(func: nat, info: Info)
    | Enter(func: nat, info: Info)

  /**
   The dense table and the application: what a callback does to the application's world and which events
   it posts, in order.  `beyond` is whatever lies in memory past the end of the table.
   */
  datatype Program<!W> = Program(table: seq<Row>, maxEvents: nat, notify: bool, beyond: Cell,
                                 behave: (Call, W) -> (W, seq<Post>))
  {
    function CellAt(state: int, event: int): (c: Cell)
    {
      if 0 <= state < |table| && 0 <= event < |table[state].cells| then table[state].cells[event] else beyond
    }

    function LeaveOf(state: int): (f: Func)
    {
      if 0 <= state < |table| then table[state].leave else None
    }

    function EntryOf(state: int): (f: Func)
    {
      if 0 <= state < |table| then table[state].entry else None
    }

    /** A table whose rows are complete and whose targets are states, as the conversion builds it. */
    ghost predicate TableOk()
    {
      TargetsOk(table) && forall st | 0 <= st < |table| :: |table[st].cells| == maxEvents
    }
  }

  /** The guard of `process_event`: the events it processes rather than rejects. */
  predicate PassesGuard(maxEvents: nat, event: int)
  {
    !(event > maxEvents || event < 0)
  }

  ghost predicate Legal(maxEvents: nat, posts: seq<Post>)
  {
    forall i | 0 <= i < |posts| :: posts[i].event != maxEvents
  }

  /** The application never posts the one event that escapes both the guard and the table. */
  ghost predicate PostsLegally<W(!new)>(pr: Program<W>)
  {
    forall call: Call, w: W :: Legal(pr.maxEvents, pr.behave(call, w).1)
  }

  /** The state machine object, with the application's world and the callbacks made so far. */
  datatype Sm<W> = Sm(info: Info, inProcess: bool, fifo: seq<Post>, world: W, trace: seq<Call>)

  /** A call that returned, or one stopped after the allowed number of events with more of them queued. */
  datatype Outcome<W> = Finished(sm: Sm<W>, rc: int) | Cut(sm: Sm<W>)

  /** `process_event`, letting at most `fuel` queued events follow. */
  function Engine<W>(pr: Program<W>, sm: Sm<W>, post: Post, fuel: nat): (r: Outcome<W>)
    ensures sm.inProcess ==> r == Finished(sm.(fifo := sm.fifo + [post]), 0)
    decreases fuel, if sm.inProcess then 0 else 5, 0
  {
    if sm.inProcess then Finished(sm.(fifo := sm.fifo + [post]), 0)   // lock_in_process() == -1
    else
      var s1 := sm.(inProcess := true);
      if post.event > pr.maxEvents || post.event < 0 then WithCode(Unlock(pr, s1, fuel), -1)
      else WithCode(Unlock(pr, RunCallbacks(pr, s1, post, fuel), fuel), 0)
  }

  function WithCode<W>(r: Outcome<W>, rc: int): (o: Outcome<W>)
  {
    match r
    case Finished(sm, _) => Finished(sm, rc)
    case Cut(sm) => Cut(sm)
  }

  /** `unlock_in_process` */
  function Unlock<W>(pr: Program<W>, sm: Sm<W>, fuel: nat): (r: Outcome<W>)
    decreases fuel, 1, 0
  {
    var s1 := sm.(inProcess := false);
    if s1.fifo == [] then Finished(s1, 0)
    else if fuel == 0 then Cut(s1)
    else Engine(pr, s1.(fifo := s1.fifo[1..]), s1.fifo[0], fuel - 1)
  }

  /** The callbacks of one event; `m_info` and the current state are read afresh at each of them. */
  function RunCallbacks<W>(pr: Program<W>, sm: Sm<W>, post: Post, fuel: nat): (r: Sm<W>)
    requires sm.inProcess
    decreases fuel, 4, 0
  {
    var state := sm.info.oldState;
    var cell := pr.CellAt(state, post.event);
    var next := cell.nextState;
    var s2 := sm.(info := Info(state, next, post.event, post.data));
    var s3 := if pr.notify then RunCallback(pr, s2, Notify(s2.info.oldState, post.event), fuel) else s2;
    var s4 := if next != s3.info.oldState && next != STAY && pr.LeaveOf(state).Some?
              then RunCallback(pr, s3, Leave(pr.LeaveOf(state).value, s3.info), fuel) else s3;
    var s5 := if cell.trans.Some? then RunCallback(pr, s4, Act(cell.trans.value, s4.info), fuel) else s4;
    if next != s5.info.oldState && next != STAY then
      var s6 := if pr.EntryOf(next).Some? then RunCallback(pr, s5, Enter(pr.EntryOf(next).value, s5.info), fuel) else s5;
      s6.(info := s6.info.(oldState := next))
    else s5
  }

  /** Run one callback: it changes the world and posts events through `process_event`. */
  function RunCallback<W>(pr: Program<W>, sm: Sm<W>, call: Call, fuel: nat): (r: Sm<W>)
    requires sm.inProcess
    ensures r.inProcess
    decreases fuel, 3, 0
  {
    var (w, posts) := pr.behave(call, sm.world);
    PostAll(pr, sm.(world := w, trace := sm.trace + [call]), posts, fuel)
  }

  function PostAll<W>(pr: Program<W>, sm: Sm<W>, posts: seq<Post>, fuel: nat): (r: Sm<W>)
    requires sm.inProcess
    ensures r.inProcess
    decreases fuel, 2, |posts|
  {
    if posts == [] then sm else PostAll(pr, Engine(pr, sm, posts[0], fuel).sm, posts[1..], fuel)
  }

  /** The reference: a current state and a list of work. */
  datatype Plain<W> = Plain(state: int, work: seq<Post>, world: W, trace: seq<Call>)

  function Do<W>(pr: Program<W>, p: Plain<W>, call: Call): (r: Plain<W>)
  {
    var (w, posts) := pr.behave(call, p.world);
    Plain(p.state, p.work + posts, w, p.trace + [call])
  }

  /** One event of the reference: all its callbacks see one and the same record. */
  function Handle<W>(pr: Program<W>, p: Plain<W>, post: Post): (r: Plain<W>)
  {
    if !PassesGuard(pr.maxEvents, post.event) then p
    else
      var cell := pr.CellAt(p.state, post.event);
      var info := Info(p.state, cell.nextState, post.event, post.data);
      var moves := cell.nextState != p.state && cell.nextState != STAY;
      var p1 := if pr.notify then Do(pr, p, Notify(p.state, post.event)) else p;
      var p2 := if moves && pr.LeaveOf(p.state).Some? then Do(pr, p1, Leave(pr.LeaveOf(p.state).value, info)) else p1;
      var p3 := if cell.trans.Some? then Do(pr, p2, Act(cell.trans.value, info)) else p2;
      if !moves then p3
      else
        var p4 := if pr.EntryOf(cell.nextState).Some?
                  then Do(pr, p3, Enter(pr.EntryOf(cell.nextState).value, info)) else p3;
        p4.(state := cell.nextState)
  }

  /** The plain work loop: take the oldest piece of work, handle it, repeat. */
  function Loop<W>(pr: Program<W>, p: Plain<W>, fuel: nat): (r: Plain<W>)
    decreases fuel
  {
    if p.work == [] || fuel == 0 then p else Loop(pr, Handle(pr, p.(work := p.work[1..]), p.work[0]), fuel - 1)
  }

  /** The engine object between events looks like the reference. */
  ghost predicate Same<W>(sm: Sm<W>, p: Plain<W>)
  {
    sm.info.oldState == p.state && sm.fifo == p.work && sm.world == p.world && sm.trace == p.trace
  }

  ghost predicate InRange<W>(pr: Program<W>, p: Plain<W>)
  {
    0 <= p.state < |pr.table| && Legal(pr.maxEvents, p.work)
  }

  /** Posting from inside a callback only appends to the queue. */
  lemma {:induction false} PostAllAppends<W>(pr: Program<W>, sm: Sm<W>, posts: seq<Post>, fuel: nat)
    requires sm.inProcess
    ensures PostAll(pr, sm, posts, fuel) == sm.(fifo := sm.fifo + posts)
    decreases |posts|
  {
    if posts == [] {
      assert sm.fifo + posts == sm.fifo;
    } else {
      PostAllAppends(pr, sm.(fifo := sm.fifo + [posts[0]]), posts[1..], fuel);
      assert sm.fifo + [posts[0]] + posts[1..] == sm.fifo + posts;
    }
  }

  /** A callback in the engine and in the reference: same world, same posts, and the record is untouched. */
  lemma InvokeIsDo<W>(pr: Program<W>, sm: Sm<W>, p: Plain<W>, call: Call, fuel: nat)
    requires sm.inProcess && Same(sm, p)
    ensures var s := RunCallback(pr, sm, call, fuel); s.inProcess && s.info == sm.info && Same(s, Do(pr, p, call))
  {
    var (w, posts) := pr.behave(call, sm.world);
    PostAllAppends(pr, sm.(world := w, trace := sm.trace + [call]), posts, fuel);
  }

  lemma CallbacksAreHandle<W>(pr: Program<W>, sm: Sm<W>, p: Plain<W>, post: Post, fuel: nat)
    requires sm.inProcess && Same(sm, p) && PassesGuard(pr.maxEvents, post.event)
    ensures var s := RunCallbacks(pr, sm, post, fuel); s.inProcess && Same(s, Handle(pr, p, post))
  {
    var state := p.state;
    var cell := pr.CellAt(state, post.event);
    var next := cell.nextState;
    var info := Info(state, next, post.event, post.data);
    var moves := next != state && next != STAY;
    var s, q := sm.(info := info), p;
    if pr.notify {
      InvokeIsDo(pr, s, q, Notify(state, post.event), fuel);
      s, q := RunCallback(pr, s, Notify(state, post.event), fuel), Do(pr, q, Notify(state, post.event));
    }
    if moves && pr.LeaveOf(state).Some? {
      var call := Leave(pr.LeaveOf(state).value, info);
      InvokeIsDo(pr, s, q, call, fuel);
      s, q := RunCallback(pr, s, call, fuel), Do(pr, q, call);
    }
    if cell.trans.Some? {
      var call := Act(cell.trans.value, info);
      InvokeIsDo(pr, s, q, call, fuel);
      s, q := RunCallback(pr, s, call, fuel), Do(pr, q, call);
    }
    if moves && pr.EntryOf(next).Some? {
      InvokeIsDo(pr, s, q, Enter(pr.EntryOf(next).value, info), fuel);
    }
  }

  lemma LegalConcat(maxEvents: nat, a: seq<Post>, b: seq<Post>)
    requires Legal(maxEvents, a) && Legal(maxEvents, b)
    ensures Legal(maxEvents, a + b)
  {
  }

  /** Handling an event keeps the state inside the table and the queue free of the stray event. */
  lemma HandleKeepsRange<W(!new)>(pr: Program<W>, p: Plain<W>, post: Post)
    requires pr.TableOk() && PostsLegally(pr) && InRange(pr, p) && post.event != pr.maxEvents
    ensures InRange(pr, Handle(pr, p, post))
  {
    if PassesGuard(pr.maxEvents, post.event) {
      var cell := pr.CellAt(p.state, post.event);
      var info := Info(p.state, cell.nextState, post.event, post.data);
      var moves := cell.nextState != p.state && cell.nextState != STAY;
      var q := p;
      if pr.notify { q := DoKeepsRange(pr, q, Notify(p.state, post.event)); }
      if moves && pr.LeaveOf(p.state).Some? { q := DoKeepsRange(pr, q, Leave(pr.LeaveOf(p.state).value, info)); }
      if cell.trans.Some? { q := DoKeepsRange(pr, q, Act(cell.trans.value, info)); }
      if moves && pr.EntryOf(cell.nextState).Some? { q := DoKeepsRange(pr, q, Enter(pr.EntryOf(cell.nextState).value, info)); }
    }
  }

  lemma DoKeepsRange<W(!new)>(pr: Program<W>, p: Plain<W>, call: Call) returns (q: Plain<W>)
    requires PostsLegally(pr) && InRange(pr, p)
    ensures q == Do(pr, p, call) && InRange(pr, q) && q.state == p.state
  {
    q := Do(pr, p, call);
    LegalConcat(pr.maxEvents, p.work, pr.behave(call, p.world).1);
  }

  /** Releasing the lock runs the queue exactly as the loop runs its work. */
  lemma {:induction false} UnlockIsLoop<W>(pr: Program<W>, sm: Sm<W>, p: Plain<W>, fuel: nat)
    requires Same(sm, p)
    ensures var r, q := Unlock(pr, sm, fuel), Loop(pr, p, fuel);
            Same(r.sm, q) && !r.sm.inProcess && (r.Finished? <==> q.work == [])
    decreases fuel, 0
  {
    if p.work != [] && fuel > 0 {
      var s1 := sm.(inProcess := false, fifo := sm.fifo[1..]);
      ProcessIsLoop(pr, s1, p.(work := p.work[1..]), p.work[0], fuel - 1);
    }
  }

  lemma {:induction false} ProcessIsLoop<W>(pr: Program<W>, sm: Sm<W>, p: Plain<W>, post: Post, fuel: nat)
    requires Same(sm, p) && !sm.inProcess
    ensures var r, q := Engine(pr, sm, post, fuel), Loop(pr, Handle(pr, p, post), fuel);
            && Same(r.sm, q) && !r.sm.inProcess && (r.Finished? <==> q.work == [])
            && (r.Finished? ==> r.rc == if PassesGuard(pr.maxEvents, post.event) then 0 else -1)
    decreases fuel, 1
  {
    var s1 := sm.(inProcess := true);
    if PassesGuard(pr.maxEvents, post.event) {
      CallbacksAreHandle(pr, s1, p, post, fuel);
      UnlockIsLoop(pr, RunCallbacks(pr, s1, post, fuel), Handle(pr, p, post), fuel);
    } else {
      UnlockIsLoop(pr, s1, p, fuel);
    }
  }

  /**
   The theorem.  For every table, legal or not, and every application, an event given to the idle engine produces,
   for every bound on the number of events that follow, the same callbacks with the same records in the same
   order, the same application state and the same machine state as the plain loop started with that event as its
   only work; the engine returns exactly when the loop runs dry, and is then idle again.
   */
  lemma EngineIsFifoLoop<W>(pr: Program<W>, sm: Sm<W>, post: Post, fuel: nat)
    requires !sm.inProcess && sm.fifo == []
    ensures var r := Engine(pr, sm, post, fuel);
            var q := Loop(pr, Plain(sm.info.oldState, [post], sm.world, sm.trace), fuel + 1);
            && Same(r.sm, q) && !r.sm.inProcess
            && (r.Finished? <==> q.work == []) && (r.Finished? ==> r.sm.fifo == [])
  {
    var p := Plain(sm.info.oldState, [post], sm.world, sm.trace);
    ProcessIsLoop(pr, sm, p.(work := []), post, fuel);
    assert p.(work := p.work[1..]) == p.(work := []);
  }

  // ------------------------------------------------------------------ staying inside the table

  lemma {:induction false} LoopKeepsRange<W(!new)>(pr: Program<W>, p: Plain<W>, fuel: nat)
    requires pr.TableOk() && PostsLegally(pr) && InRange(pr, p)
    ensures InRange(pr, Loop(pr, p, fuel))
    decreases fuel
  {
    if p.work != [] && fuel > 0 {
      HandleKeepsRange(pr, p.(work := p.work[1..]), p.work[0]);
      LoopKeepsRange(pr, Handle(pr, p.(work := p.work[1..]), p.work[0]), fuel - 1);
    }
  }

  /** The current state, at rest or when the bound is reached, is a row of the table. */
  ghost predicate Inside<W>(pr: Program<W>, sm: Sm<W>)
  {
    0 <= sm.info.oldState < |pr.table|
  }

  lemma EngineKeepsRange<W(!new)>(pr: Program<W>, sm: Sm<W>, post: Post, fuel: nat)
    requires pr.TableOk() && PostsLegally(pr) && post.event != pr.maxEvents
    requires !sm.inProcess && sm.fifo == [] && Inside(pr, sm)
    ensures Inside(pr, Engine(pr, sm, post, fuel).sm)
  {
    EngineIsFifoLoop(pr, sm, post, fuel);
    LoopKeepsRange(pr, Plain(sm.info.oldState, [post], sm.world, sm.trace), fuel + 1);
  }

  /** The cell past the table leads to a state outside the table. */
  ghost predicate LeadsOut<W>(pr: Program<W>)
  {
    pr.beyond.nextState != STAY && !(0 <= pr.beyond.nextState < |pr.table|)
  }

  /** Once outside, every event reads the cell past the table again. */
  lemma {:induction false} LoopStaysOut<W>(pr: Program<W>, p: Plain<W>, fuel: nat)
    requires LeadsOut(pr) && p.state == pr.beyond.nextState
    ensures Loop(pr, p, fuel).state == pr.beyond.nextState
    decreases fuel
  {
    if p.work != [] && fuel > 0 {
      LoopStaysOut(pr, Handle(pr, p.(work := p.work[1..]), p.work[0]), fuel - 1);
    }
  }

  /** The event equal to the number of events passes the guard and takes the machine to the state found past the table, and
   when that is outside the table the machine never comes back. */
  lemma StrayEventEscapes<W>(pr: Program<W>, sm: Sm<W>, post: Post, fuel: nat)
    requires forall st | 0 <= st < |pr.table| :: |pr.table[st].cells| == pr.maxEvents
    requires !sm.inProcess && sm.fifo == [] && Inside(pr, sm) && post.event == pr.maxEvents && LeadsOut(pr)
    ensures Engine(pr, sm, post, fuel).sm.info.oldState == pr.beyond.nextState
  {
    var p := Plain(sm.info.oldState, [post], sm.world, sm.trace);
    EngineIsFifoLoop(pr, sm, post, fuel);
    LoopStaysOut(pr, Handle(pr, p.(work := p.work[1..]), post), fuel);
  }

  /** The guard is off by one: whatever lies past the table, an event keeps the state inside the table if and only if
   it is not the number of events. */
  lemma GuardAdmitsOneTooMany<W(!new)>(pr: Program<W>, sm: Sm<W>, post: Post, fuel: nat)
    requires pr.TableOk() && PostsLegally(pr) && !sm.inProcess && sm.fifo == [] && Inside(pr, sm)
    ensures (forall c: Cell :: Inside(pr, Engine(pr.(beyond := c), sm, post, fuel).sm)) <==> post.event != pr.maxEvents
  {
    if post.event == pr.maxEvents {
      StrayEventEscapes(pr.(beyond := Cell(-7, None)), sm, post, fuel);
    } else {
      forall c: Cell
        ensures Inside(pr, Engine(pr.(beyond := c), sm, post, fuel).sm)
      {
        EngineKeepsRange(pr.(beyond := c), sm, post, fuel);
      }
    }
  }

  // ------------------------------------------------------------------ runs on a converted table

  /** The application gives the machine one event after another; bounds[i] events may follow the i-th. */
  function Feed<W>(pr: Program<W>, sm: Sm<W>, posts: seq<Post>, bounds: seq<nat>): (r: Sm<W>)
    requires |bounds| == |posts|
    decreases |posts|
  {
    if posts == [] then sm
    else
      match Engine(pr, sm, posts[0], bounds[0])
      case Cut(s) => s
      case Finished(s, _) => Feed(pr, s, posts[1..], bounds[1..])
  }

  lemma {:induction false} FeedKeepsRange<W(!new)>(pr: Program<W>, sm: Sm<W>, posts: seq<Post>, bounds: seq<nat>)
    requires pr.TableOk() && PostsLegally(pr) && Legal(pr.maxEvents, posts) && |bounds| == |posts|
    requires !sm.inProcess && sm.fifo == [] && Inside(pr, sm)
    ensures Inside(pr, Feed(pr, sm, posts, bounds))
    decreases |posts|
  {
    if posts != [] {
      EngineKeepsRange(pr, sm, posts[0], bounds[0]);
      EngineIsFifoLoop(pr, sm, posts[0], bounds[0]);
      match Engine(pr, sm, posts[0], bounds[0])
      case Cut(s) =>
      case Finished(s, _) => FeedKeepsRange(pr, s, posts[1..], bounds[1..]);
    }
  }

  /** The machine as the constructor leaves it. */
  function Start<W>(state: nat, world: W): (sm: Sm<W>) { Sm(Info(state, -1, -1, 0), false, [], world, []) }

  /** From every start state, whatever legal events come, the machine is inside the table at every point of the run. */
  ghost predicate AlwaysInside<W(!new)>(pr: Program<W>)
  {
    forall state: nat, world: W, posts: seq<Post>, bounds: seq<nat> |
      state < |pr.table| && |bounds| == |posts| && Legal(pr.maxEvents, posts) ::
      Inside(pr, Feed(pr, Start(state, world), posts, bounds))
  }

  /** The table is what the conversion makes of the first n lines, all of which it accepted. */
  ghost predicate Converted<W>(pr: Program<W>, lines: seq<Line>, n: nat, d: Defaults)
    requires n <= |lines|
  {
    && TableMatches(pr.table, lines[..n], d, pr.maxEvents)
    && forall i: nat | i < n :: LineOk(lines, i, d, |pr.table|, pr.maxEvents)
  }

  /** No line that decides a cell has a negative target other than STAY. */
  ghost predicate TargetsInRange(lines: seq<Line>)
  {
    forall i: nat | i < |lines| && Decides(lines, i) :: lines[i].nextState == STAY || lines[i].nextState >= 0
  }

  lemma PrefixAccepted<W>(pr: Program<W>, lines: seq<Line>, n: nat, d: Defaults)
    requires n <= |lines| && Converted(pr, lines, n, d)
    ensures pr.TableOk() <==> TargetsInRange(lines[..n])
  {
    forall i: nat | i < n
      ensures LineOk(lines[..n], i, d, |pr.table|, pr.maxEvents)
    {
      assert LineOk(lines, i, d, |pr.table|, pr.maxEvents);
      assert lines[..n][..i] == lines[..i];
    }
    forall st | 0 <= st < |pr.table|
      ensures |pr.table[st].cells| == pr.maxEvents
    {
      assert RowMatches(pr.table[st], lines[..n], d, st, pr.maxEvents);
    }
    AcceptedTargets(pr.table, lines[..n], d, pr.maxEvents);
  }

  /** A deciding line with a negative target takes the machine out of the table as soon as its event is handled. */
  lemma NegativeTargetEscapes<W>(pr: Program<W>, lines: seq<Line>, n: nat, d: Defaults, i: nat, world: W)
    requires i < n <= |lines| && Converted(pr, lines, n, d) && Decides(lines[..n], i)
    requires lines[i].nextState < 0 && lines[i].nextState != STAY
    ensures var l := lines[i];
            && 0 <= l.state < |pr.table| && 0 <= l.event < pr.maxEvents
            && Feed(pr, Start(l.state, world), [Post(l.event, 0)], [0]).info.oldState == l.nextState
  {
    var l := lines[i];
    assert LineOk(lines, i, d, |pr.table|, pr.maxEvents);
    assert RowMatches(pr.table[l.state], lines[..n], d, l.state, pr.maxEvents);
    LastLineIsLast(lines[..n], l.state, l.event);
    var post, sm := Post(l.event, 0), Start(l.state, world);
    assert pr.CellAt(l.state, l.event) == Cell(l.nextState, l.action);
    ProcessIsLoop(pr, sm, Plain(l.state, [], world, []), post, 0);
    assert Handle(pr, Plain(l.state, [], world, []), post).state == l.nextState;
  }

  /**
   Short table to runs, also for the partial table that a failed conversion leaves behind: every run from every
   state stays inside the table if and only if no deciding line has a negative target other than STAY.
   */
  lemma ConvertedRunsStayInside<W(!new)>(pr: Program<W>, lines: seq<Line>, n: nat, d: Defaults, world: W)
    requires n <= |lines| && Converted(pr, lines, n, d) && PostsLegally(pr)
    ensures AlwaysInside(pr) <==> TargetsInRange(lines[..n])
  {
    PrefixAccepted(pr, lines, n, d);
    if TargetsInRange(lines[..n]) {
      forall state: nat, w: W, posts: seq<Post>, bounds: seq<nat> |
        state < |pr.table| && |bounds| == |posts| && Legal(pr.maxEvents, posts)
        ensures Inside(pr, Feed(pr, Start(state, w), posts, bounds))
      {
        FeedKeepsRange(pr, Start(state, w), posts, bounds);
      }
    } else {
      var i: nat :| i < n && Decides(lines[..n], i) && !(lines[i].nextState == STAY || lines[i].nextState >= 0);
      NegativeTargetEscapes(pr, lines, n, d, i, world);
      var posts, bounds := [Post(lines[i].event, 0)], [0];
      assert !Inside(pr, Feed(pr, Start(lines[i].state, world), posts, bounds));
    }
  }

  /** Such a line is accepted: one state, one event, target -7. */
  lemma NegativeTargetAccepted(d: Defaults, f: Func)
    ensures LineOk([Line(0, 0, -7, f)], 0, d, 1, 1) && !TargetsInRange([Line(0, 0, -7, f)])
  {
    var lines := [Line(0, 0, -7, f)];
    assert lines[..0] == [];
    assert Decides(lines, 0) && lines[0].nextState == -7;
  }

  /** The object itself: mutually recursive methods over its fields, for calls that return. */
  class StateMachine<W> {
    const pr: Program<W>
    var info: Info
    var inProcess: bool            // m_b_is_in_process
    var fifo: seq<Post>            // m_sm_fifo
    var world: W
    ghost var trace: seq<Call>

    ghost function State(): (s: Sm<W>)
      reads this
    {
      Sm(info, inProcess, fifo, world, trace)
    }

    constructor (pr: Program<W>, startState: nat, world: W)
      ensures this.pr == pr && State() == Start(startState, world)
    {
      this.pr := pr;
      info := Info(startState, -1, -1, 0);
      inProcess, fifo := false, [];
      this.world := world;
      trace := [];
    }

    /** `lock_in_process`: -1 when an event is being processed, and then the new one is queued. */
    method LockInProcess(post: Post) returns (rc: int)
      modifies this`inProcess, this`fifo
      ensures rc == if old(inProcess) then -1 else 0
      ensures State() == if old(inProcess) then old(State()).(fifo := old(fifo) + [post]) else old(State()).(inProcess := true)
    {
      if !inProcess {
        inProcess := true;
      } else {
        fifo := fifo + [post];
        return -1;
      }
      return 0;
    }

    /** `unlock_in_process`; `fuel` bounds the events that still follow. */
    method UnlockInProcess(ghost fuel: nat)
      requires Unlock(pr, State(), fuel).Finished?
      modifies this
      ensures State() == Unlock(pr, old(State()), fuel).sm
      decreases fuel, 1, 0
    {
      inProcess := false;
      if fifo != [] {
        var next := fifo[0];
        fifo := fifo[1..];
        var _ := ProcessEvent(next, fuel - 1);
      }
    }

    /** `process_event` */
    method ProcessEvent(post: Post, ghost fuel: nat) returns (rc: int)
      requires Engine(pr, State(), post, fuel).Finished?
      modifies this
      ensures Finished(State(), rc) == Engine(pr, old(State()), post, fuel)
      decreases fuel, if inProcess then 0 else 5, 0
    {
      ghost var s0 := State();
      var locked := LockInProcess(post);
      if locked == -1 {
        return 0;
      }
      if post.event > pr.maxEvents || post.event < 0 {
        UnlockInProcess(fuel);
        return -1;
      }
      Callbacks(post, fuel);
      UnlockInProcess(fuel);
      return 0;
    }

    /** The callbacks of one event. */
    method Callbacks(post: Post, ghost fuel: nat)
      requires inProcess
      modifies this
      ensures State() == RunCallbacks(pr, old(State()), post, fuel)
      decreases fuel, 4, 0
    {
      var state := info.oldState;
      var cell := pr.CellAt(state, post.event);
      var next := cell.nextState;
      info := Info(state, next, post.event, post.data);
      if pr.notify {
        Invoke(Notify(info.oldState, post.event), fuel);
      }
      if next != info.oldState && next != STAY && pr.LeaveOf(state).Some? {
        Invoke(Leave(pr.LeaveOf(state).value, info), fuel);
      }
      if cell.trans.Some? {
        Invoke(Act(cell.trans.value, info), fuel);
      }
      if next != info.oldState && next != STAY {
        if pr.EntryOf(next).Some? {
          Invoke(Enter(pr.EntryOf(next).value, info), fuel);
        }
        info := info.(oldState := next);
      }
    }

    /** Run a callback; the events it posts come in through `process_event`. */
    method Invoke(call: Call, ghost fuel: nat)
      requires inProcess
      modifies this
      ensures State() == RunCallback(pr, old(State()), call, fuel)
      decreases fuel, 3, 0
    {
      var (w, posts) := pr.behave(call, world);
      world := w;
      trace := trace + [call];
      ghost var s1 := State();
      for i := 0 to |posts|
        invariant inProcess
        invariant PostAll(pr, State(), posts[i..], fuel) == PostAll(pr, s1, posts, fuel)
      {
        assert posts[i..][1..] == posts[i + 1..];
        var _ := ProcessEvent(posts[i], fuel);
      }
    }
  }
}
