/**
 The transition tables of src/state_machine/sm.cpp: `process_sparse_table` expands a short table of lines
 into a dense table indexed by state and event.
 */
module SmTable {
  import opened Options

  const NO_STATE := -2      // SM_NO_ST, ends the short table
  const STAY := -3          // SM_ST_STAY
  const ON_ENTRY := -4      // SM_STATE_ENTRY
  const ON_LEAVE := -5      // SM_STATE_LEAVE

  /** A callback, or NULL. */
  type Func = Option<nat>

  datatype Line = Line(state: int, event: int, nextState: int, action: Func)

  datatype Cell = Cell(nextState: int, trans: Func)

  datatype Row = Row(entry: Func, leave: Func, cells: seq<Cell>)

  datatype Defaults = Defaults(entry: Func, leave: Func, trans: Func)

  /** The last line for a state and event, if any. */
  function LastLine(lines: seq<Line>, state: int, event: int): (r: Option<Line>)
  {
    if lines == [] then None
    else
      var l := lines[|lines| - 1];
      if l.state == state && l.event == event then Some(l) else LastLine(lines[..|lines| - 1], state, event)
  }

  /** LastLine is the matching line with the largest index, and None exactly when no line matches. */
  lemma {:induction false} LastLineIsLast(lines: seq<Line>, state: int, event: int)
    ensures LastLine(lines, state, event).None? <==>
              forall i | 0 <= i < |lines| :: !(lines[i].state == state && lines[i].event == event)
    ensures forall i | 0 <= i < |lines| && lines[i].state == state && lines[i].event == event
                       && (forall j | i < j < |lines| :: !(lines[j].state == state && lines[j].event == event)) ::
              LastLine(lines, state, event) == Some(lines[i])
  {
    if lines != [] {
      var n := |lines| - 1;
      LastLineIsLast(lines[..n], state, event);
      assert forall i | 0 <= i < n :: lines[..n][i] == lines[i];
    }
  }

  /** What the dense table must say after the given lines. */
  function CellOf(lines: seq<Line>, d: Defaults, state: int, event: int): (c: Cell)
  {
    match LastLine(lines, state, event)
    case None => Cell(STAY, d.trans)
    case Some(l) => Cell(l.nextState, l.action)
  }

  function FuncOf(lines: seq<Line>, state: int, event: int, default: Func): (f: Func)
  {
    match LastLine(lines, state, event)
    case None => default
    case Some(l) => l.action
  }

  /** A row of the dense table says what the lines say about its state. */
  ghost predicate RowMatches(row: Row, lines: seq<Line>, d: Defaults, state: int, maxEvents: nat)
  {
    && row.entry == FuncOf(lines, state, ON_ENTRY, d.entry)
    && row.leave == FuncOf(lines, state, ON_LEAVE, d.leave)
    && |row.cells| == maxEvents
    && forall ev | 0 <= ev < maxEvents :: row.cells[ev] == CellOf(lines, d, state, ev)
  }

  ghost predicate TableMatches(t: seq<Row>, lines: seq<Line>, d: Defaults, maxEvents: nat)
  {
    forall st | 0 <= st < |t| :: RowMatches(t[st], lines, d, st, maxEvents)
  }

  /** The checks made on line i: its state, event and target, and that its cell was not claimed before. */
  predicate LineOk(lines: seq<Line>, i: nat, d: Defaults, maxStates: nat, maxEvents: nat)
    requires i < |lines|
  {
    var l := lines[i];
    && 0 <= l.state < maxStates
    && (l.event == ON_ENTRY || l.event == ON_LEAVE
        || (0 <= l.event < maxEvents && l.nextState < maxStates
            && CellOf(lines[..i], d, l.state, l.event).trans == d.trans))
  }

  predicate SameCell(a: Line, b: Line) { a.state == b.state && a.event == b.event }

  /** Line k is the last one before line i for the same cell. */
  ghost predicate JustBefore(lines: seq<Line>, k: nat, i: nat)
    requires i < |lines|
  {
    k < i && SameCell(lines[k], lines[i]) && forall j | k < j < i :: !SameCell(lines[j], lines[i])
  }

  lemma CellBefore(lines: seq<Line>, i: nat, k: nat, d: Defaults)
    requires i < |lines| && JustBefore(lines, k, i)
    ensures CellOf(lines[..i], d, lines[i].state, lines[i].event).trans == lines[k].action
  {
    LastLineIsLast(lines[..i], lines[i].state, lines[i].event);
    assert lines[..i][k] == lines[k];
  }

  lemma UnclaimedBefore(lines: seq<Line>, i: nat, d: Defaults) returns (k: nat)
    requires i < |lines| && CellOf(lines[..i], d, lines[i].state, lines[i].event).trans != d.trans
    ensures JustBefore(lines, k, i)
  {
    k := LastLineIndex(lines[..i], lines[i].state, lines[i].event);
    assert forall j | 0 <= j < i :: lines[..i][j] == lines[j];
  }

  /** A transition is accepted exactly if its state and event are in range, its target is not too large, and the line before it
   for the same cell, if there is one, has the default action. */
  lemma LineOkIff(lines: seq<Line>, i: nat, d: Defaults, maxStates: nat, maxEvents: nat)
    requires i < |lines| && lines[i].event != ON_ENTRY && lines[i].event != ON_LEAVE
    ensures LineOk(lines, i, d, maxStates, maxEvents) <==>
              && 0 <= lines[i].state < maxStates && 0 <= lines[i].event < maxEvents && lines[i].nextState < maxStates
              && forall k: nat | JustBefore(lines, k, i) :: lines[k].action == d.trans
  {
    forall k: nat | JustBefore(lines, k, i) {
      CellBefore(lines, i, k, d);
    }
    if CellOf(lines[..i], d, lines[i].state, lines[i].event).trans != d.trans {
      var k := UnclaimedBefore(lines, i, d);
      CellBefore(lines, i, k, d);
    }
  }

  /** In an accepted table every line for a cell but the last has the default action. */
  lemma {:induction false} ReusedHasDefault(lines: seq<Line>, d: Defaults, maxStates: nat, maxEvents: nat, k: nat, i: nat)
    requires k < i < |lines| && SameCell(lines[k], lines[i]) && lines[i].event != ON_ENTRY && lines[i].event != ON_LEAVE
    requires forall j: nat | j <= i :: LineOk(lines, j, d, maxStates, maxEvents)
    ensures lines[k].action == d.trans
    decreases i
  {
    if j: nat :| k < j < i && SameCell(lines[j], lines[i]) {
      ReusedHasDefault(lines, d, maxStates, maxEvents, k, j);
    } else {
      LineOkIff(lines, i, d, maxStates, maxEvents);
      assert JustBefore(lines, k, i);
    }
  }

  /** Adding a line changes what is said about its own state and event only. */
  lemma OneMoreLine(lines: seq<Line>, i: nat, state: int, event: int)
    requires i < |lines|
    ensures LastLine(lines[..i + 1], state, event) ==
              if lines[i].state == state && lines[i].event == event then Some(lines[i]) else LastLine(lines[..i], state, event)
  {
    assert lines[..i + 1][..i] == lines[..i];
  }

  /** The effect of one good line on the table. */
  lemma RowStep(row: Row, row': Row, lines: seq<Line>, i: nat, d: Defaults, state: int, maxEvents: nat)
    requires i < |lines| && RowMatches(row, lines[..i], d, state, maxEvents)
    requires lines[i].state != state ==> row' == row
    requires lines[i].state == state && lines[i].event == ON_ENTRY ==> row' == row.(entry := lines[i].action)
    requires lines[i].state == state && lines[i].event == ON_LEAVE ==> row' == row.(leave := lines[i].action)
    requires lines[i].state == state && lines[i].event != ON_ENTRY && lines[i].event != ON_LEAVE ==>
               0 <= lines[i].event < maxEvents
               && row' == row.(cells := row.cells[lines[i].event := Cell(lines[i].nextState, lines[i].action)])
    ensures RowMatches(row', lines[..i + 1], d, state, maxEvents)
  {
    OneMoreLine(lines, i, state, ON_ENTRY);
    OneMoreLine(lines, i, state, ON_LEAVE);
    forall ev | 0 <= ev < maxEvents
      ensures row'.cells[ev] == CellOf(lines[..i + 1], d, state, ev)
    {
      OneMoreLine(lines, i, state, ev);
    }
  }

  /** The part of the short table before its end mark. */
  ghost predicate EndsAt(lines: seq<Line>, n: nat)
  {
    n < |lines| && lines[n].state == NO_STATE && forall i | 0 <= i < n :: lines[i].state != NO_STATE
  }

  /** `process_sparse_table` into a freshly allocated table. */
  class DenseTable {
    const maxStates: nat
    const maxEvents: nat
    const rows: array<Row>         // m_p_sm_table

    constructor (maxStates: nat, maxEvents: nat)
      ensures this.maxStates == maxStates == rows.Length && this.maxEvents == maxEvents && fresh(rows)
    {
      this.maxStates, this.maxEvents := maxStates, maxEvents;
      rows := new Row[maxStates](_ => Row(None, None, []));
    }

    /** Fill every row with the defaults. */
    method FillDefaults(d: Defaults)
      requires rows.Length == maxStates
      modifies rows
      ensures TableMatches(rows[..], [], d, maxEvents)
    {
      for st := 0 to maxStates
        invariant forall s | 0 <= s < st :: RowMatches(rows[s], [], d, s, maxEvents)
      {
        rows[st] := Row(d.entry, d.leave, seq(maxEvents, _ => Cell(STAY, d.trans)));
      }
    }

    /**
     The whole conversion.  It succeeds exactly when every line before the end mark is good, and then the dense
     table says for each state and event what the last line for them says, or the default; otherwise it stops
     at the first bad line with the lines before it entered.
     */
    method ProcessSparseTable(lines: seq<Line>, d: Defaults, ghost n: nat) returns (ok: bool, ghost entered: nat)
      requires rows.Length == maxStates && EndsAt(lines, n)
      modifies rows
      ensures entered <= n && TableMatches(rows[..], lines[..entered], d, maxEvents)
      ensures forall i: nat | i < entered :: LineOk(lines, i, d, maxStates, maxEvents)
      ensures ok ==> entered == n
      ensures !ok ==> entered < n && !LineOk(lines, entered, d, maxStates, maxEvents)
    {
      FillDefaults(d);
      var line := 0;
      entered := 0;
      assert lines[..0] == [];
      while true
        invariant line == entered <= n
        invariant TableMatches(rows[..], lines[..line], d, maxEvents)
        invariant forall i: nat | i < line :: LineOk(lines, i, d, maxStates, maxEvents)
        decreases n - line
      {
        var l := lines[line];
        if l.state == NO_STATE {
          return true, entered;
        }
        if l.state < 0 || l.state >= maxStates {
          return false, entered;
        }
        var row := rows[l.state];
        ghost var before := rows[..];
        if l.event == ON_ENTRY {
          row := row.(entry := l.action);
        } else if l.event == ON_LEAVE {
          row := row.(leave := l.action);
        } else {
          if l.event < 0 || l.event >= maxEvents {
            return false, entered;
          }
          if l.nextState >= maxStates {
            return false, entered;
          }
          assert RowMatches(rows[..][l.state], lines[..line], d, l.state, maxEvents);
          if row.cells[l.event].trans != d.trans {
            return false, entered;
          }
          row := row.(cells := row.cells[l.event := Cell(l.nextState, l.action)]);
        }
        rows[l.state] := row;
        forall st | 0 <= st < maxStates
          ensures RowMatches(rows[..][st], lines[..line + 1], d, st, maxEvents)
        {
          assert RowMatches(before[st], lines[..line], d, st, maxEvents);
          RowStep(before[st], rows[st], lines, line, d, st, maxEvents);
        }
        line, entered := line + 1, entered + 1;
      }
    }
  }

  /** Every target in a table is a state or STAY. */
  ghost predicate TargetsOk(t: seq<Row>)
  {
    forall st, ev | 0 <= st < |t| && 0 <= ev < |t[st].cells| ::
      var next := t[st].cells[ev].nextState; next == STAY || 0 <= next < |t|
  }

  /** Line i decides its cell: it is a transition and no later line is for the same state and event. */
  ghost predicate Decides(lines: seq<Line>, i: nat)
    requires i < |lines|
  {
    && lines[i].event != ON_ENTRY && lines[i].event != ON_LEAVE
    && forall j | i < j < |lines| :: !(lines[j].state == lines[i].state && lines[j].event == lines[i].event)
  }

  /**
   The conversion rejects targets that are too large but not negative ones: all targets of the table it
   builds are states exactly when no deciding line has a negative target other than STAY.
   */
  lemma AcceptedTargets(t: seq<Row>, lines: seq<Line>, d: Defaults, maxEvents: nat)
    requires TableMatches(t, lines, d, maxEvents)
    requires forall i: nat | i < |lines| :: LineOk(lines, i, d, |t|, maxEvents)
    ensures TargetsOk(t) <==> forall i: nat | i < |lines| && Decides(lines, i) ::
              lines[i].nextState == STAY || lines[i].nextState >= 0
  {
    if TargetsOk(t) {
      forall i: nat | i < |lines| && Decides(lines, i)
        ensures lines[i].nextState == STAY || lines[i].nextState >= 0
      {
        var l := lines[i];
        assert LineOk(lines, i, d, |t|, maxEvents) && RowMatches(t[l.state], lines, d, l.state, maxEvents);
        LastLineIsLast(lines, l.state, l.event);
        assert t[l.state].cells[l.event] == Cell(l.nextState, l.action);
      }
    }
    if forall i: nat | i < |lines| && Decides(lines, i) :: lines[i].nextState == STAY || lines[i].nextState >= 0 {
      forall st, ev | 0 <= st < |t| && 0 <= ev < |t[st].cells|
        ensures var next := t[st].cells[ev].nextState; next == STAY || 0 <= next < |t|
      {
        assert RowMatches(t[st], lines, d, st, maxEvents);
        if LastLine(lines, st, ev).Some? {
          var i := LastLineIndex(lines, st, ev);
          assert LineOk(lines, i, d, |t|, maxEvents) && Decides(lines, i);
        }
      }
    }
  }

  lemma {:induction false} LastLineIndex(lines: seq<Line>, state: int, event: int) returns (i: nat)
    requires LastLine(lines, state, event).Some?
    ensures i < |lines| && lines[i] == LastLine(lines, state, event).value
    ensures lines[i].state == state && lines[i].event == event
    ensures forall j | i < j < |lines| :: !(lines[j].state == state && lines[j].event == event)
  {
    var n := |lines| - 1;
    if lines[n].state == state && lines[n].event == event {
      i := n;
    } else {
      i := LastLineIndex(lines[..n], state, event);
      assert forall j | 0 <= j < n :: lines[..n][j] == lines[j];
    }
  }
}
