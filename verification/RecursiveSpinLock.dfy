/**
 The recursive spin lock of src/utils/lock_wrapper.h as a state machine over the individual loads and
 stores of its methods.  `lock` and `trylock` read `m_owner` without holding anything; the theorems say
 why that read can be trusted in every interleaving.
 */
module RecursiveSpinLock {
  import opened Options

  type Tid = nat

  /** The next load or store of a thread inside the lock's methods. */
  datatype Pc =
    | Outside
    | ReadOwner(try: bool)         // if (m_owner == self)
    | NestLoad | NestStore(c: int) // ++m_lock_count, as the owner
    | Spin(try: bool)              // lock_spin::lock() or lock_spin::trylock()
    | FirstLoad | FirstStore(c: int) // ++m_lock_count, just acquired
    | TakeOwner                    // m_owner = self
    | DropLoad | DropStore(c: int) // --m_lock_count
    | ClearOwner                   // m_owner = m_invalid_owner
    | Release                      // lock_spin::unlock()
    | AskOwner | AskCount          // is_locked_by_me(): m_owner == self && m_lock_count

  /** The lock's memory. */
  datatype Shared = Shared(
    spin: Option<Tid>,             // the spin lock, with the thread that acquired it
    owner: Option<Tid>,            // m_owner; None is m_invalid_owner
    count: int)                    // m_lock_count

  /**
   A thread: where it is, how deep it is nested (successful locks minus finished unlocks), and the last
   answer is_locked_by_me() gave it.
   */
  datatype Thread = Thread(pc: Pc, depth: nat, answer: bool)

  datatype State = State(sh: Shared, threads: map<Tid, Thread>)

  datatype Action = Lock | TryLock | Unlock | AskIsLocked | Continue

  ghost predicate Initial(s: State)
  {
    && s.sh == Shared(None, None, 0)
    && forall t | t in s.threads :: s.threads[t] == Thread(Outside, 0, false)
  }

  function Minus1(n: nat): (r: nat) { if n == 0 then 0 else n - 1 }

  /** One step of thread t; None when it is not enabled (a blocked spin, or a call from inside a call). */
  function Step(sh: Shared, t: Tid, l: Thread, a: Action): (r: Option<(Shared, Thread)>)
  {
    var self := Some(t);
    match l.pc
    case Outside =>
      (match a
       case Lock => Some((sh, l.(pc := ReadOwner(false))))
       case TryLock => Some((sh, l.(pc := ReadOwner(true))))
       case Unlock => if l.depth > 0 then Some((sh, l.(pc := DropLoad))) else None  // only a holder unlocks
       case AskIsLocked => Some((sh, l.(pc := AskOwner)))
       case Continue => None)
    case ReadOwner(try) => Some((sh, l.(pc := if sh.owner == self then NestLoad else Spin(try))))
    case NestLoad => Some((sh, l.(pc := NestStore(sh.count))))
    case NestStore(c) => Some((sh.(count := c + 1), l.(pc := Outside, depth := l.depth + 1)))
    case Spin(try) =>
      if sh.spin.None? then Some((sh.(spin := self), l.(pc := FirstLoad)))
      else if try then Some((sh, l.(pc := Outside)))   // EBUSY
      else None
    case FirstLoad => Some((sh, l.(pc := FirstStore(sh.count))))
    case FirstStore(c) => Some((sh.(count := c + 1), l.(pc := TakeOwner)))
    case TakeOwner => Some((sh.(owner := self), l.(pc := Outside, depth := l.depth + 1)))
    case DropLoad => Some((sh, l.(pc := DropStore(sh.count))))
    case DropStore(c) =>
      if c - 1 == 0 then Some((sh.(count := 0), l.(pc := ClearOwner)))
      else Some((sh.(count := c - 1), l.(pc := Outside, depth := Minus1(l.depth))))
    case ClearOwner => Some((sh.(owner := None), l.(pc := Release)))
    case Release => Some((sh.(spin := None), l.(pc := Outside, depth := Minus1(l.depth))))
    case AskOwner =>
      if sh.owner == self then Some((sh, l.(pc := AskCount))) else Some((sh, l.(pc := Outside, answer := false)))
    case AskCount => Some((sh, l.(pc := Outside, answer := sh.count != 0)))
  }

  /** Thread t of a state takes its step; a disabled step leaves the state as it is. */
  function Next(s: State, t: Tid, a: Action): (r: State)
    ensures r.threads.Keys == s.threads.Keys
  {
    if t !in s.threads then s
    else match Step(s.sh, t, s.threads[t], a)
      case None => s
      case Some((sh, l)) => State(sh, s.threads[t := l])
  }

  /** The state after a run: any schedule of threads and of the calls they make. */
  function Run(s: State, schedule: seq<(Tid, Action)>): (r: State)
    ensures r.threads.Keys == s.threads.Keys
    decreases schedule
  {
    if schedule == [] then s else Run(Next(s, schedule[0].0, schedule[0].1), schedule[1..])
  }

  /** t has acquired the spin lock in a first lock or trylock that has not returned yet. */
  predicate Entering(p: Pc) { p.FirstLoad? || p.FirstStore? || p.TakeOwner? }

  /** The part of the invariant about one thread. */
  ghost predicate ThreadOk(sh: Shared, t: Tid, l: Thread)
  {
    var p, d := l.pc, l.depth;
    && (sh.spin == Some(t) <==> d > 0 || Entering(p))
    && (sh.owner == Some(t) <==> d > 0 && !p.Release?)
    && (p.NestLoad? || p.NestStore? || p.DropLoad? || p.DropStore? || p.AskCount? ==> d > 0)
    && (p.ClearOwner? || p.Release? ==> d == 1)
    && (p.Spin? || Entering(p) ==> d == 0)
    && (p.NestStore? || p.DropStore? ==> p.c == d)
    && (p.FirstStore? ==> p.c == 0)
    && (sh.spin == Some(t) ==>
          sh.count == if p.FirstLoad? || p.FirstStore? || p.ClearOwner? || p.Release? then 0
                      else if p.TakeOwner? then 1 else d)
  }

  /** Only the thread with the spin lock can be the owner, and without one the count is zero. */
  ghost predicate FreeOk(sh: Shared)
  {
    (sh.owner.Some? ==> sh.spin == sh.owner) && (sh.spin.None? ==> sh.count == 0)
  }

  ghost predicate Invariant(s: State)
  {
    && FreeOk(s.sh)
    && (s.sh.spin.Some? ==> s.sh.spin.value in s.threads)
    && (forall t | t in s.threads :: ThreadOk(s.sh, t, s.threads[t]))
  }

  lemma OwnStep(sh: Shared, t: Tid, l: Thread, a: Action)
    requires FreeOk(sh) && ThreadOk(sh, t, l) && Step(sh, t, l, a).Some?
    ensures ThreadOk(Step(sh, t, l, a).value.0, t, Step(sh, t, l, a).value.1)
    ensures FreeOk(Step(sh, t, l, a).value.0)
  {
  }

  /** What thread t does cannot disturb another thread. */
  lemma OtherStep(sh: Shared, t: Tid, l: Thread, a: Action, u: Tid, k: Thread)
    requires FreeOk(sh) && ThreadOk(sh, t, l) && ThreadOk(sh, u, k) && t != u && Step(sh, t, l, a).Some?
    ensures ThreadOk(Step(sh, t, l, a).value.0, u, k)
  {
  }

  lemma NextKeepsInvariant(s: State, t: Tid, a: Action)
    requires Invariant(s)
    ensures Invariant(Next(s, t, a))
  {
    if t in s.threads && Step(s.sh, t, s.threads[t], a).Some? {
      var l := s.threads[t];
      OwnStep(s.sh, t, l, a);
      forall u | u in s.threads && u != t
        ensures ThreadOk(Step(s.sh, t, l, a).value.0, u, s.threads[u])
      {
        OtherStep(s.sh, t, l, a, u, s.threads[u]);
      }
    }
  }

  /** Whatever a run starts from in order, it keeps in order. */
  lemma {:induction false} RunKeeps(s: State, schedule: seq<(Tid, Action)>)
    requires Invariant(s)
    ensures Invariant(Run(s, schedule))
    decreases schedule
  {
    if schedule != [] {
      NextKeepsInvariant(s, schedule[0].0, schedule[0].1);
      RunKeeps(Next(s, schedule[0].0, schedule[0].1), schedule[1..]);
    }
  }

  lemma RunKeepsInvariant(s: State, schedule: seq<(Tid, Action)>)
    requires Initial(s)
    ensures Invariant(Run(s, schedule))
  {
    RunKeeps(s, schedule);
  }

  /** At most one thread is inside, in every interleaving. */
  lemma MutualExclusion(s: State, schedule: seq<(Tid, Action)>, t: Tid, u: Tid)
    requires Initial(s) && t in s.threads && u in s.threads
    requires Run(s, schedule).threads[t].depth > 0 && Run(s, schedule).threads[u].depth > 0
    ensures t == u
  {
    RunKeepsInvariant(s, schedule);
  }

  /**
   Wherever the code reads `m_owner` without the lock, the comparison with self is true exactly when the
   reading thread holds the lock.
   */
  lemma UnlockedReadIsExact(s: State, schedule: seq<(Tid, Action)>, t: Tid)
    requires Initial(s) && t in s.threads
    requires var p := Run(s, schedule).threads[t].pc; p.ReadOwner? || p.AskOwner?
    ensures Run(s, schedule).sh.owner == Some(t) <==> Run(s, schedule).threads[t].depth > 0
  {
    RunKeepsInvariant(s, schedule);
  }

  /** Between calls `m_lock_count` is the holder's nesting depth; no holder, no count. */
  lemma CountIsDepth(s: State, schedule: seq<(Tid, Action)>)
    requires Initial(s)
    ensures var r := Run(s, schedule);
            && (forall t | t in r.threads && r.threads[t].pc.Outside? && r.threads[t].depth > 0 ::
                  r.sh.count == r.threads[t].depth)
            && (r.sh.spin.None? ==> r.sh.count == 0)
  {
    RunKeepsInvariant(s, schedule);
  }

  /** The answering step of `is_locked_by_me` reports whether the caller is inside. */
  lemma AnswerIsTruth(s: State, schedule: seq<(Tid, Action)>, t: Tid, a: Action)
    requires Initial(s) && t in s.threads
    requires var p := Run(s, schedule).threads[t].pc; p.AskCount? || p.AskOwner?
    ensures var l, l' := Run(s, schedule).threads[t], Next(Run(s, schedule), t, a).threads[t];
            l'.pc.Outside? ==> l'.answer == (l.depth > 0)
  {
    RunKeepsInvariant(s, schedule);
  }

  /** A holder never waits for itself: inside a call it always has an enabled step, and never the spin. */
  lemma HolderNeverSpins(s: State, schedule: seq<(Tid, Action)>, t: Tid, a: Action)
    requires Initial(s) && t in s.threads
    requires var l := Run(s, schedule).threads[t]; l.depth > 0 && !l.pc.Outside?
    ensures var r := Run(s, schedule); !r.threads[t].pc.Spin? && Step(r.sh, t, r.threads[t], a).Some?
  {
    RunKeepsInvariant(s, schedule);
  }

  // ------------------------------------------------------------------ what a call does

  /** Where a thread can be inside the given call. */
  predicate Inside(call: Action, p: Pc)
  {
    match call
    case Lock => p == ReadOwner(false) || p == Spin(false) || p.NestLoad? || p.NestStore? || Entering(p)
    case TryLock => p == ReadOwner(true) || p == Spin(true) || p.NestLoad? || p.NestStore? || Entering(p)
    case Unlock => p.DropLoad? || p.DropStore? || p.ClearOwner? || p.Release?
    case AskIsLocked => p.AskOwner? || p.AskCount?
    case Continue => false
  }

  /** Another thread than t has the spin lock. */
  predicate TakenFrom(sh: Shared, t: Tid) { sh.spin.Some? && sh.spin != Some(t) }

  /** What a call of t promises when it returns by the step from before to after; d is the depth at its start. */
  ghost predicate Returned(call: Action, t: Tid, d: nat, before: State, after: State)
    requires t in after.threads
  {
    var l := after.threads[t];
    && l.pc.Outside?
    && (match call
        case Lock => l.depth == d + 1 && after.sh.owner == Some(t)
        case TryLock =>
          if l.depth == d then TakenFrom(before.sh, t) && after.sh == before.sh   // EBUSY
          else l.depth == d + 1 && after.sh.owner == Some(t)
        case Unlock =>
          if d == 1 then l.depth == 0 && after.sh == Shared(None, None, 0)
          else l.depth == d - 1 && after.sh.owner == Some(t) && after.sh.count == d - 1
        case AskIsLocked => l.depth == d && l.answer == (d > 0) && after.sh == before.sh
        case Continue => true)
  }

  /** A step leaves t in its call, at its depth, or makes the call return as promised. */
  ghost predicate GoesOnOrReturns(call: Action, t: Tid, d: nat, before: State, after: State)
    requires t in after.threads
  {
    if after.threads[t].pc.Outside? then Returned(call, t, d, before, after)
    else Inside(call, after.threads[t].pc) && after.threads[t].depth == d
  }

  lemma OwnCallStep(s: State, t: Tid, call: Action, a: Action)
    requires FreeOk(s.sh) && t in s.threads && ThreadOk(s.sh, t, s.threads[t]) && Inside(call, s.threads[t].pc)
    ensures GoesOnOrReturns(call, t, s.threads[t].depth, s, Next(s, t, a))
  {
  }

  lemma CallStep(s: State, t: Tid, call: Action, u: Tid, a: Action)
    requires Invariant(s) && t in s.threads && Inside(call, s.threads[t].pc)
    ensures GoesOnOrReturns(call, t, s.threads[t].depth, s, Next(s, u, a))
  {
    if u == t {
      OwnCallStep(s, t, call, a);
    } else {
      assert Next(s, u, a).threads[t] == s.threads[t];
    }
  }

  /** Thread t, inside a call, returns from it with the last step of the schedule and not before. */
  ghost predicate ReturnsWithLast(s: State, t: Tid, schedule: seq<(Tid, Action)>)
    requires t in s.threads
    decreases schedule
  {
    && schedule != []
    && var r := Next(s, schedule[0].0, schedule[0].1);
       if r.threads[t].pc.Outside? then |schedule| == 1 else ReturnsWithLast(r, t, schedule[1..])
  }

  lemma {:induction false} CallReturns(s: State, t: Tid, call: Action, schedule: seq<(Tid, Action)>)
    requires Invariant(s) && t in s.threads && Inside(call, s.threads[t].pc) && ReturnsWithLast(s, t, schedule)
    ensures Returned(call, t, s.threads[t].depth, Run(s, schedule[..|schedule| - 1]), Run(s, schedule))
    decreases schedule
  {
    var r := Next(s, schedule[0].0, schedule[0].1);
    NextKeepsInvariant(s, schedule[0].0, schedule[0].1);
    CallStep(s, t, call, schedule[0].0, schedule[0].1);
    if |schedule| > 1 {
      var rest := schedule[1..];
      CallReturns(r, t, call, rest);
      assert schedule[..|schedule| - 1][0] == schedule[0];
      assert schedule[..|schedule| - 1][1..] == rest[..|rest| - 1];
    } else {
      assert schedule[1..] == [] && schedule[..|schedule| - 1] == [];
    }
  }

  /**
   In every interleaving: `lock` returns one level deeper and as the owner; `trylock` too, unless another thread had
   the spin lock at the step in which it gave up; `unlock` returns one level up, and the last one frees the lock.
   */
  lemma EveryCallReturns(s: State, schedule: seq<(Tid, Action)>, t: Tid, call: Action, during: seq<(Tid, Action)>)
    requires Initial(s) && t in s.threads
    requires var l := Run(s, schedule).threads[t]; l.pc.Outside? && (call.Unlock? ==> l.depth > 0) && !call.Continue?
    requires ReturnsWithLast(Next(Run(s, schedule), t, call), t, during)
    ensures var r, called := Run(s, schedule), Next(Run(s, schedule), t, call);
            Returned(call, t, r.threads[t].depth, Run(called, during[..|during| - 1]), Run(called, during))
  {
    RunKeepsInvariant(s, schedule);
    CallEnters(Run(s, schedule), t, call);
    NextKeepsInvariant(Run(s, schedule), t, call);
    CallReturns(Next(Run(s, schedule), t, call), t, call, during);
  }

  // ------------------------------------------------------------------ progress

  /** The most loads and stores a call still needs. */
  function StepsLeft(p: Pc): (n: nat)
  {
    match p
    case Outside => 0
    case ReadOwner(_) => 5
    case Spin(_) => 4
    case FirstLoad => 3
    case FirstStore(_) => 2
    case TakeOwner => 1
    case NestLoad => 2
    case NestStore(_) => 1
    case DropLoad => 4
    case DropStore(_) => 3
    case ClearOwner => 2
    case Release => 1
    case AskOwner => 2
    case AskCount => 1
  }

  /** Only a `lock` that finds the spin lock with another thread waits. */
  lemma WaitsIff(s: State, t: Tid, a: Action)
    requires Invariant(s) && t in s.threads && !s.threads[t].pc.Outside?
    ensures Step(s.sh, t, s.threads[t], a).None? <==> s.threads[t].pc == Spin(false) && TakenFrom(s.sh, t)
    ensures var l := Next(s, t, a).threads[t];
            Step(s.sh, t, s.threads[t], a).Some? ==> StepsLeft(l.pc) < StepsLeft(s.threads[t].pc)
  {
  }

  /** Thread t goes on alone. */
  function Alone(t: Tid, n: nat): (r: seq<(Tid, Action)>)
  {
    if n == 0 then [] else [(t, Continue)] + Alone(t, n - 1)
  }

  /** Thread t, going on alone for n steps, takes s to the state after. */
  ghost predicate Leads(s: State, t: Tid, n: nat, after: State) { after == Run(s, Alone(t, n)) }

  lemma AloneGoesOn(s: State, t: Tid, n: nat, after: State)
    requires n > 0 && Leads(s, t, n, after)
    ensures Leads(Next(s, t, Continue), t, n - 1, after)
  {
    assert Alone(t, n)[1..] == Alone(t, n - 1);
  }

  lemma {:induction false} IdleAlone(s: State, t: Tid, n: nat, after: State)
    requires t in s.threads && s.threads[t].pc.Outside? && Leads(s, t, n, after)
    ensures after == s
  {
    if n > 0 {
      AloneGoesOn(s, t, n, after);
      IdleAlone(s, t, n - 1, after);
    }
  }

  /** Thread t is in a call that need not wait, and goes on alone for n steps, which are enough. */
  ghost predicate GoesAlone(s: State, t: Tid, call: Action, n: nat, after: State)
  {
    && Invariant(s) && t in s.threads && Inside(call, s.threads[t].pc) && StepsLeft(s.threads[t].pc) <= n
    && (call.Lock? ==> !TakenFrom(s.sh, t)) && t in after.threads && Leads(s, t, n, after)
  }

  lemma LoneStep(s: State, t: Tid, call: Action, n: nat, after: State) returns (r: State)
    requires GoesAlone(s, t, call, n, after) && n > 0
    ensures r == Next(s, t, Continue) && GoesOnOrReturns(call, t, s.threads[t].depth, s, r) && Leads(r, t, n - 1, after)
    ensures Inside(call, r.threads[t].pc) ==> GoesAlone(r, t, call, n - 1, after)
    ensures TakenFrom(r.sh, t) ==> TakenFrom(s.sh, t)
  {
    r := Next(s, t, Continue);
    NextKeepsInvariant(s, t, Continue);
    CallStep(s, t, call, t, Continue);
    WaitsIff(s, t, Continue);
    AloneGoesOn(s, t, n, after);
  }

  /** The next step returns, or goes on in the same way. */
  lemma LoneGoesOn(s: State, t: Tid, call: Action, n: nat, after: State) returns (back: bool, r: State)
    requires GoesAlone(s, t, call, n, after)
    ensures back ==> Returned(call, t, s.threads[t].depth, s, after)
    ensures !back ==>
              && n > 0 && GoesAlone(r, t, call, n - 1, after) && r.threads[t].depth == s.threads[t].depth
              && (TakenFrom(r.sh, t) ==> TakenFrom(s.sh, t))
  {
    r := LoneStep(s, t, call, n, after);
    back := r.threads[t].pc.Outside?;
    if back {
      IdleAlone(r, t, n - 1, after);
    }
  }

  /** A call that need not wait, scheduled alone, returns as promised. */
  lemma {:induction false} LoneCallReturns(s: State, t: Tid, call: Action, n: nat, after: State) returns (before: State)
    requires GoesAlone(s, t, call, n, after)
    ensures Returned(call, t, s.threads[t].depth, before, after)
    ensures TakenFrom(before.sh, t) ==> TakenFrom(s.sh, t)
    decreases n
  {
    var back, r := LoneGoesOn(s, t, call, n, after);
    if back {
      before := s;
    } else {
      before := LoneCallReturns(r, t, call, n - 1, after);
    }
  }

  /** The lock as t leaves it at depth d between two calls. */
  function HeldAt(t: Tid, d: nat): (sh: Shared)
  {
    if d == 0 then Shared(None, None, 0) else Shared(Some(t), Some(t), d)
  }

  lemma ReturnedAt(call: Action, t: Tid, d: nat, before: State, after: State)
    requires t in after.threads && Invariant(after) && Returned(call, t, d, before, after)
    requires call.Lock? || (call.TryLock? && !TakenFrom(before.sh, t)) || (call.Unlock? && d > 0)
    ensures var l := after.threads[t];
            && l.depth == (if call.Unlock? then d - 1 else d + 1)
            && after.sh == HeldAt(t, l.depth)
  {
    assert ThreadOk(after.sh, t, after.threads[t]);
  }

  /** A thread that comes to the spin lock while it is free, and then runs alone, gets it: for `lock` and `trylock` alike. */
  lemma FreeLockIsTaken(s: State, schedule: seq<(Tid, Action)>, t: Tid, n: nat)
    requires Initial(s) && t in s.threads && n >= 4
    requires Run(s, schedule).threads[t].pc.Spin? && Run(s, schedule).sh.spin.None?
    ensures var r, after := Run(s, schedule), Run(Run(s, schedule), Alone(t, n));
            && after.threads[t].pc.Outside? && after.threads[t].depth == r.threads[t].depth + 1
            && after.sh == HeldAt(t, after.threads[t].depth)
  {
    RunKeepsInvariant(s, schedule);
    var r := Run(s, schedule);
    var call := if r.threads[t].pc.try then TryLock else Lock;
    var after := Run(r, Alone(t, n));
    RunKeeps(r, Alone(t, n));
    var before := LoneCallReturns(r, t, call, n, after);
    ReturnedAt(call, t, r.threads[t].depth, before, after);
  }

  lemma CallEnters(s: State, t: Tid, call: Action)
    requires t in s.threads && s.threads[t].pc.Outside? && !call.Continue? && (call.Unlock? ==> s.threads[t].depth > 0)
    ensures var r := Next(s, t, call);
            && r.sh == s.sh && Inside(call, r.threads[t].pc) && r.threads[t].depth == s.threads[t].depth
            && StepsLeft(r.threads[t].pc) <= 5
  {
  }

  /** A holder's call, run alone, takes it one level down or up, and the last unlock leaves the lock free. */
  lemma HolderCallReturns(s: State, schedule: seq<(Tid, Action)>, t: Tid, call: Action, n: nat)
    requires Initial(s) && t in s.threads && n >= 5 && (call.Lock? || call.TryLock? || call.Unlock?)
    requires Run(s, schedule).threads[t].pc.Outside? && Run(s, schedule).threads[t].depth > 0
    ensures var d, after := Run(s, schedule).threads[t].depth, Run(Next(Run(s, schedule), t, call), Alone(t, n));
            && after.threads[t].pc.Outside?
            && after.threads[t].depth == (if call.Unlock? then d - 1 else d + 1)
            && after.sh == HeldAt(t, after.threads[t].depth)
  {
    RunKeepsInvariant(s, schedule);
    var r := Run(s, schedule);
    assert ThreadOk(r.sh, t, r.threads[t]);
    CallEnters(r, t, call);
    NextKeepsInvariant(r, t, call);
    var called := Next(r, t, call);
    var after := Run(called, Alone(t, n));
    RunKeeps(called, Alone(t, n));
    var before := LoneCallReturns(called, t, call, n, after);
    ReturnedAt(call, t, r.threads[t].depth, before, after);
  }

  /** No deadlock: who waits, waits for another thread that holds the lock between two calls or can go on. */
  lemma WaitsForAnother(s: State, schedule: seq<(Tid, Action)>, t: Tid, a: Action)
    requires Initial(s) && t in s.threads
    requires var r := Run(s, schedule); !r.threads[t].pc.Outside? && Step(r.sh, t, r.threads[t], a).None?
    ensures var r := Run(s, schedule);
            exists u :: u in r.threads && u != t && r.sh.spin == Some(u)
                        && if r.threads[u].pc.Outside? then r.threads[u].depth > 0
                           else Step(r.sh, u, r.threads[u], a).Some?
  {
    RunKeepsInvariant(s, schedule);
    var r := Run(s, schedule);
    WaitsIff(r, t, a);
    var u := r.sh.spin.value;
    assert u in r.threads && u != t && ThreadOk(r.sh, u, r.threads[u]);
  }
}
