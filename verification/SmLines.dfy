/**
 What the short table of src/state_machine/sm.cpp means: the callbacks and the target of an event, read from the lines
 themselves.  The theorems say that the engine on the converted table does what the lines say.
 */
module SmLines {
  import opened SmTable
  import opened SmEngine

  /** Line i is the last one for the state and event. */
  ghost predicate LastFor(lines: seq<Line>, i: int, state: int, event: int)
  {
    && 0 <= i < |lines| && lines[i].state == state && lines[i].event == event
    && forall j | i < j < |lines| :: !(lines[j].state == state && lines[j].event == event)
  }

  ghost predicate NoneFor(lines: seq<Line>, state: int, event: int)
  {
    forall i | 0 <= i < |lines| :: !(lines[i].state == state && lines[i].event == event)
  }

  /** The lines give the callback f: the action of the last line for it, or else the default. */
  ghost predicate Gives(lines: seq<Line>, state: int, event: int, default: Func, f: Func)
  {
    if NoneFor(lines, state, event) then f == default
    else exists i :: LastFor(lines, i, state, event) && f == lines[i].action
  }

  /** The lines send the event to the target: that of the last line for it, or else STAY. */
  ghost predicate Sends(lines: seq<Line>, state: int, event: int, target: int)
  {
    if NoneFor(lines, state, event) then target == STAY
    else exists i :: LastFor(lines, i, state, event) && target == lines[i].nextState
  }

  /** What the lines say about an event in a state. */
  datatype Said = Said(target: int, leave: Func, action: Func, entry: Func)

  ghost predicate Say(lines: seq<Line>, d: Defaults, state: int, event: int, s: Said)
  {
    && Sends(lines, state, event, s.target) && Gives(lines, state, event, d.trans, s.action)
    && Gives(lines, state, ON_LEAVE, d.leave, s.leave) && Gives(lines, s.target, ON_ENTRY, d.entry, s.entry)
  }

  predicate Moves(state: int, s: Said) { s.target != state && s.target != STAY }

  /** The calls of an event, in order. */
  function CallsFor(notify: bool, state: int, post: Post, s: Said): (calls: seq<Call>)
  {
    var info := Info(state, s.target, post.event, post.data);
    (if notify then [Notify(state, post.event)] else [])
    + (if Moves(state, s) && s.leave.Some? then [Leave(s.leave.value, info)] else [])
    + (if s.action.Some? then [Act(s.action.value, info)] else [])
    + (if Moves(state, s) && s.entry.Some? then [Enter(s.entry.value, info)] else [])
  }

  /** The application, without a table. */
  datatype App<!W> = App(maxEvents: nat, notify: bool, behave: (Call, W) -> (W, seq<Post>))

  ghost predicate Runs<W>(pr: Program<W>, app: App<W>)
  {
    pr.maxEvents == app.maxEvents && pr.notify == app.notify && pr.behave == app.behave
  }

  function CallAll<W>(app: App<W>, p: Plain<W>, calls: seq<Call>): (r: Plain<W>)
    ensures r.state == p.state
    decreases calls
  {
    if calls == [] then p
    else
      var (w, posts) := app.behave(calls[0], p.world);
      CallAll(app, Plain(p.state, p.work + posts, w, p.trace + [calls[0]]), calls[1..])
  }

  lemma {:induction false} CallAllTrace<W>(app: App<W>, p: Plain<W>, calls: seq<Call>)
    ensures CallAll(app, p, calls).trace == p.trace + calls
    decreases calls
  {
    if calls != [] {
      var (w, posts) := app.behave(calls[0], p.world);
      CallAllTrace(app, Plain(p.state, p.work + posts, w, p.trace + [calls[0]]), calls[1..]);
      assert p.trace + [calls[0]] + calls[1..] == p.trace + calls;
    }
  }

  lemma {:induction false} CallAllConcat<W>(app: App<W>, p: Plain<W>, a: seq<Call>, b: seq<Call>)
    ensures CallAll(app, p, a + b) == CallAll(app, CallAll(app, p, a), b)
    decreases a
  {
    if a == [] {
      assert a + b == b;
    } else {
      var (w, posts) := app.behave(a[0], p.world);
      assert (a + b)[0] == a[0] && (a + b)[1..] == a[1..] + b;
      CallAllConcat(app, Plain(p.state, p.work + posts, w, p.trace + [a[0]]), a[1..], b);
    }
  }

  /** An event that the guard admits, as the lines have it. */
  function Answer<W>(app: App<W>, p: Plain<W>, post: Post, s: Said): (r: Plain<W>)
  {
    var r := CallAll(app, p, CallsFor(app.notify, p.state, post, s));
    if Moves(p.state, s) then r.(state := s.target) else r
  }

  /** What the converted table says is what the lines say. */
  lemma TableSays<W>(pr: Program<W>, lines: seq<Line>, d: Defaults, state: int, event: int) returns (s: Said)
    requires TableMatches(pr.table, lines, d, pr.maxEvents) && pr.TableOk()
    requires 0 <= state < |pr.table| && 0 <= event < pr.maxEvents
    ensures Say(lines, d, state, event, s) && (Moves(state, s) ==> 0 <= s.target < |pr.table|)
    ensures pr.CellAt(state, event) == Cell(s.target, s.action) && pr.LeaveOf(state) == s.leave
    ensures Moves(state, s) ==> pr.EntryOf(s.target) == s.entry
  {
    var cell := pr.table[state].cells[event];
    assert RowMatches(pr.table[state], lines, d, state, pr.maxEvents);
    s := Said(cell.nextState, pr.table[state].leave, cell.trans, FuncOf(lines, cell.nextState, ON_ENTRY, d.entry));
    LineGives(lines, state, event, d.trans);
    LineGives(lines, state, ON_LEAVE, d.leave);
    LineGives(lines, s.target, ON_ENTRY, d.entry);
    if Moves(state, s) {
      assert RowMatches(pr.table[s.target], lines, d, s.target, pr.maxEvents);
    }
  }

  lemma LineGives(lines: seq<Line>, state: int, event: int, default: Func)
    ensures Gives(lines, state, event, default, FuncOf(lines, state, event, default))
    ensures Sends(lines, state, event, match LastLine(lines, state, event) case None => STAY case Some(l) => l.nextState)
  {
    LastLineIsLast(lines, state, event);
    if LastLine(lines, state, event).Some? {
      var i := LastLineIndex(lines, state, event);
      assert LastFor(lines, i, state, event);
    }
  }

  /** Handling an event on the table is answering it by the lines. */
  lemma HandleIsAnswer<W>(pr: Program<W>, app: App<W>, p: Plain<W>, post: Post, s: Said)
    requires Runs(pr, app) && PassesGuard(pr.maxEvents, post.event)
    requires pr.CellAt(p.state, post.event) == Cell(s.target, s.action) && pr.LeaveOf(p.state) == s.leave
    requires Moves(p.state, s) ==> pr.EntryOf(s.target) == s.entry
    ensures Handle(pr, p, post) == Answer(app, p, post, s)
  {
    var info := Info(p.state, s.target, post.event, post.data);
    var moves := Moves(p.state, s);
    var c1 := if pr.notify then [Notify(p.state, post.event)] else [];
    var c2 := if moves && s.leave.Some? then [Leave(s.leave.value, info)] else [];
    var c3 := if s.action.Some? then [Act(s.action.value, info)] else [];
    var c4 := if moves && s.entry.Some? then [Enter(s.entry.value, info)] else [];
    CallAllConcat(app, p, c1 + c2 + c3, c4);
    CallAllConcat(app, p, c1 + c2, c3);
    CallAllConcat(app, p, c1, c2);
  }

  /**
   One event on the converted table: the engine makes, in order, the notify call, the leave callback of the old state if
   the state changes, the action of the event, and the entry callback of the new state if it changes, each as the last
   line for it says; and it ends in that line's target.
   */
  lemma EventRunsItsLines<W>(pr: Program<W>, lines: seq<Line>, n: nat, d: Defaults, sm: Sm<W>, post: Post, fuel: nat)
    returns (s: Said)
    requires n <= |lines| && Converted(pr, lines, n, d) && TargetsInRange(lines[..n])
    requires sm.inProcess && Inside(pr, sm) && 0 <= post.event < pr.maxEvents
    ensures Say(lines[..n], d, sm.info.oldState, post.event, s)
    ensures var r := RunCallbacks(pr, sm, post, fuel);
            && r.trace == sm.trace + CallsFor(pr.notify, sm.info.oldState, post, s)
            && r.info.oldState == if Moves(sm.info.oldState, s) then s.target else sm.info.oldState
  {
    PrefixAccepted(pr, lines, n, d);
    s := TableSays(pr, lines[..n], d, sm.info.oldState, post.event);
    var app := App(pr.maxEvents, pr.notify, pr.behave);
    var p := Plain(sm.info.oldState, sm.fifo, sm.world, sm.trace);
    CallbacksAreHandle(pr, sm, p, post, fuel);
    HandleIsAnswer(pr, app, p, post, s);
    CallAllTrace(app, p, CallsFor(pr.notify, p.state, post, s));
  }

  // ------------------------------------------------------------------ runs

  /** What the lines say, computed. */
  function Read(lines: seq<Line>, d: Defaults, state: int, event: int): (s: Said)
  {
    var target := match LastLine(lines, state, event) case None => STAY case Some(l) => l.nextState;
    Said(target, FuncOf(lines, state, ON_LEAVE, d.leave), FuncOf(lines, state, event, d.trans),
         FuncOf(lines, target, ON_ENTRY, d.entry))
  }

  lemma ReadSays(lines: seq<Line>, d: Defaults, state: int, event: int, s: Said)
    requires Say(lines, d, state, event, s)
    ensures s == Read(lines, d, state, event)
  {
    GivenOnce(lines, state, event, d.trans, s.action);
    GivenOnce(lines, state, ON_LEAVE, d.leave, s.leave);
    GivenOnce(lines, s.target, ON_ENTRY, d.entry, s.entry);
    LastLineIsLast(lines, state, event);
    if !NoneFor(lines, state, event) {
      var i :| LastFor(lines, i, state, event) && s.target == lines[i].nextState;
    }
  }

  lemma GivenOnce(lines: seq<Line>, state: int, event: int, default: Func, f: Func)
    requires Gives(lines, state, event, default, f)
    ensures f == FuncOf(lines, state, event, default)
  {
    LastLineIsLast(lines, state, event);
    if !NoneFor(lines, state, event) {
      var i :| LastFor(lines, i, state, event) && f == lines[i].action;
    }
  }

  /** One event by the lines; illegal events are skipped. */
  function AnswerOrSkip<W>(app: App<W>, lines: seq<Line>, d: Defaults, p: Plain<W>, post: Post): (r: Plain<W>)
  {
    if 0 <= post.event < app.maxEvents then Answer(app, p, post, Read(lines, d, p.state, post.event)) else p
  }

  /** An interpreter of the lines: it takes the oldest event, answers it, and repeats. */
  function Interpret<W>(app: App<W>, lines: seq<Line>, d: Defaults, p: Plain<W>, fuel: nat): (r: Plain<W>)
    decreases fuel
  {
    if p.work == [] || fuel == 0 then p
    else Interpret(app, lines, d, AnswerOrSkip(app, lines, d, p.(work := p.work[1..]), p.work[0]), fuel - 1)
  }

  lemma HandleInterprets<W>(pr: Program<W>, app: App<W>, lines: seq<Line>, d: Defaults, p: Plain<W>, post: Post)
    requires TableMatches(pr.table, lines, d, pr.maxEvents) && pr.TableOk() && Runs(pr, app)
    requires 0 <= p.state < |pr.table| && post.event != pr.maxEvents
    ensures Handle(pr, p, post) == AnswerOrSkip(app, lines, d, p, post)
  {
    if 0 <= post.event < pr.maxEvents {
      var s := TableSays(pr, lines, d, p.state, post.event);
      ReadSays(lines, d, p.state, post.event, s);
      HandleIsAnswer(pr, app, p, post, s);
    }
  }

  lemma {:induction false} LoopInterprets<W(!new)>(pr: Program<W>, app: App<W>, lines: seq<Line>, d: Defaults, p: Plain<W>, fuel: nat)
    requires TableMatches(pr.table, lines, d, pr.maxEvents) && pr.TableOk() && PostsLegally(pr) && Runs(pr, app)
    requires InRange(pr, p)
    ensures Loop(pr, p, fuel) == Interpret(app, lines, d, p, fuel)
    decreases fuel
  {
    if p.work != [] && fuel > 0 {
      var q, post := p.(work := p.work[1..]), p.work[0];
      HandleKeepsRange(pr, q, post);
      HandleInterprets(pr, app, lines, d, q, post);
      LoopInterprets(pr, app, lines, d, Handle(pr, q, post), fuel - 1);
    }
  }

  /**
   Whole runs: on a converted table whose lines have legal targets, the engine makes the same calls, in the same order,
   with the same effect on the application, and reaches the same state as the interpreter of the lines.
   */
  lemma EngineInterpretsLines<W(!new)>(pr: Program<W>, app: App<W>, lines: seq<Line>, n: nat, d: Defaults, sm: Sm<W>,
                                       post: Post, fuel: nat)
    requires n <= |lines| && Converted(pr, lines, n, d) && TargetsInRange(lines[..n]) && PostsLegally(pr) && Runs(pr, app)
    requires !sm.inProcess && sm.fifo == [] && Inside(pr, sm) && post.event != pr.maxEvents
    ensures Same(Engine(pr, sm, post, fuel).sm,
                 Interpret(app, lines[..n], d, Plain(sm.info.oldState, [post], sm.world, sm.trace), fuel + 1))
  {
    PrefixAccepted(pr, lines, n, d);
    EngineIsFifoLoop(pr, sm, post, fuel);
    LoopInterprets(pr, app, lines[..n], d, Plain(sm.info.oldState, [post], sm.world, sm.trace), fuel + 1);
  }
}
