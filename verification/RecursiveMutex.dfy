/**
 RecursiveMutex of src/base/thread.h as a machine of atomic steps: every load and store of the
 owner and of the depth, and every operation of the inner mutex, is a step of its own, and the
 steps of any number of threads interleave freely.
 */
module MutexMachine {
  import opened Options

  /** Thread ids; 0 stands for no thread. */
  type Tid = nat

  /** What a thread does next. A number is a depth it has loaded and not stored yet. */
  datatype Pc =
    | Outside
    | LoadOwner | LoadDepthToLock | StoreDepthToLock(loaded: int)
    | Acquire | StoreOwner | StoreFirstDepth
    | LoadDepthToUnlock | StoreDepthToUnlock(loaded: int) | ClearOwner | Release

  /** A thread, with the number of lock() calls that have returned and of unlock() calls that have begun. */
  datatype Thread = Thread(pc: Pc, locked: nat, unlocked: nat) {
    predicate Inside() {
      locked > unlocked
    }
  }

  const NEW_THREAD := Thread(Outside, 0, 0)

  /** What one thread can see and change: owner_, recursion_depth_, the holder of mutex_, and itself. */
  datatype View = View(owner: Tid, depth: int, holder: Tid, thread: Thread) {
    function Goes(pc: Pc): View {
      this.(thread := thread.(pc := pc))
    }

    /** lock() returns. */
    function Locked(): View {
      this.(thread := Thread(Outside, thread.locked + 1, thread.unlocked))
    }
  }

  datatype Action = CallLock | CallUnlock | Continue

  /**
   One atomic step of thread `t`, if it can make it: unlock() is called only by a thread that is
   inside, and the inner mutex is not given twice.
   */
  function Act(v: View, t: Tid, action: Action): Option<View> {
    match (v.thread.pc, action)
    case (Outside, CallLock) => Some(v.Goes(LoadOwner))
    case (Outside, CallUnlock) =>
      if v.thread.Inside()
      then Some(v.(thread := Thread(LoadDepthToUnlock, v.thread.locked, v.thread.unlocked + 1)))
      else None
    case (LoadOwner, Continue) => Some(v.Goes(if v.owner == t then LoadDepthToLock else Acquire))
    case (LoadDepthToLock, Continue) => Some(v.Goes(StoreDepthToLock(v.depth)))
    case (StoreDepthToLock(n), Continue) => Some(v.Locked().(depth := n + 1))
    case (Acquire, Continue) => if v.holder == 0 then Some(v.Goes(StoreOwner).(holder := t)) else None
    case (StoreOwner, Continue) => Some(v.Goes(StoreFirstDepth).(owner := t))
    case (StoreFirstDepth, Continue) => Some(v.Locked().(depth := 1))
    case (LoadDepthToUnlock, Continue) => Some(v.Goes(StoreDepthToUnlock(v.depth)))
    case (StoreDepthToUnlock(n), Continue) => Some(v.Goes(if n - 1 > 0 then Outside else ClearOwner).(depth := n - 1))
    case (ClearOwner, Continue) => Some(v.Goes(Release).(owner := 0))
    case (Release, Continue) => Some(v.Goes(Outside).(holder := 0))
    case _ => None
  }

  /** The shared data and all threads. */
  datatype State = State(owner: Tid, depth: int, holder: Tid, threads: map<Tid, Thread>) {
    function At(t: Tid): Thread {
      if t in threads then threads[t] else NEW_THREAD
    }

    function Seen(t: Tid): View {
      View(owner, depth, holder, At(t))
    }
  }

  const INITIAL := State(0, 0, 0, map[])

  function Step(s: State, t: Tid, action: Action): Option<State> {
    if t == 0 then None
    else
      match Act(s.Seen(t), t, action)
      case None => None
      case Some(v) => Some(State(v.owner, v.depth, v.holder, s.threads[t := v.thread]))
  }

  datatype Move = Move(tid: Tid, action: Action)

  /** An interleaving, as far as every step in it can be made. */
  function Run(s: State, moves: seq<Move>): Option<State> {
    if moves == [] then Some(s)
    else
      match Run(s, moves[..|moves| - 1])
      case None => None
      case Some(before) => Step(before, moves[|moves| - 1].tid, moves[|moves| - 1].action)
  }

  // ---------------------------------------------------------------------------
  // The invariant
  // ---------------------------------------------------------------------------

  /** What holds of a thread that does not hold the inner mutex. */
  predicate Elsewhere(thread: Thread) {
    thread.locked == thread.unlocked && (thread.pc.Outside? || thread.pc.LoadOwner? || thread.pc.Acquire?)
  }

  /** What holds of the thread that holds the inner mutex. */
  predicate Holding(s: View, t: Tid) {
    var nesting := s.thread.locked - s.thread.unlocked;
    match s.thread.pc
    case Outside => s.owner == t && s.depth == nesting >= 1
    case LoadOwner => s.owner == t && s.depth == nesting >= 1
    case LoadDepthToLock => s.owner == t && s.depth == nesting >= 1
    case StoreDepthToLock(n) => s.owner == t && n == s.depth == nesting >= 1
    case Acquire => false
    case StoreOwner => s.owner == 0 && s.depth == nesting == 0
    case StoreFirstDepth => s.owner == t && s.depth == nesting == 0
    case LoadDepthToUnlock => s.owner == t && s.depth == nesting + 1 >= 1
    case StoreDepthToUnlock(n) => s.owner == t && n == s.depth == nesting + 1 >= 1
    case ClearOwner => s.owner == t && s.depth == nesting == 0
    case Release => s.owner == 0 && s.depth == nesting == 0
  }

  ghost predicate Inv(s: State) {
    && (forall t: Tid | t == 0 || t != s.holder :: Elsewhere(s.At(t)))
    && (s.holder == 0 ==> s.owner == 0 && s.depth == 0)
    && (s.holder != 0 ==> Holding(s.Seen(s.holder), s.holder))
  }

  /** A step changes the thread that makes it and no other. */
  lemma StepIsLocal(s: State, t: Tid, action: Action, u: Tid)
    requires Step(s, t, action).Some?
    ensures t != 0 && Act(s.Seen(t), t, action) == Some(Step(s, t, action).value.Seen(t))
    ensures u != t ==> Step(s, t, action).value.At(u) == s.At(u)
  {}

  /** The mutex changes hands in Acquire and Release only; while another thread holds it, shared data stays as it is. */
  lemma StepByOther(s: State, t: Tid, action: Action)
    requires Inv(s) && Step(s, t, action).Some? && s.holder != t
    ensures var s' := Step(s, t, action).value;
            && (s'.holder != t ==> s'.holder == s.holder && Elsewhere(s'.At(t)))
            && (s'.holder == t ==> s.holder == 0)
            && s'.owner == s.owner && s'.depth == s.depth
            && (s'.holder == t ==> Holding(s'.Seen(t), t))
  {
    assert Elsewhere(s.At(t));
  }

  lemma StepByHolder(s: State, t: Tid, action: Action)
    requires Inv(s) && Step(s, t, action).Some? && s.holder == t
    ensures var s' := Step(s, t, action).value;
            && (s'.holder == t || s'.holder == 0)
            && (s'.holder == t ==> Holding(s'.Seen(t), t))
            && (s'.holder == 0 ==> s'.owner == 0 && s'.depth == 0 && Elsewhere(s'.At(t)))
  {}

  lemma StepKeepsInv(s: State, t: Tid, action: Action)
    requires Inv(s) && Step(s, t, action).Some?
    ensures Inv(Step(s, t, action).value)
  {
    hide Elsewhere, Step, Act;
    var s' := Step(s, t, action).value;
    StepIsLocal(s, t, action, t);
    if s.holder == t {
      StepByHolder(s, t, action);
    } else {
      StepByOther(s, t, action);
    }
    forall u: Tid | u != t
      ensures s'.At(u) == s.At(u)
    {
      StepIsLocal(s, t, action, u);
    }
  }

  lemma {:induction false} RunKeepsInv(moves: seq<Move>)
    requires Run(INITIAL, moves).Some?
    ensures Inv(Run(INITIAL, moves).value)
    decreases |moves|
  {
    hide Step;
    if moves != [] {
      var last := moves[|moves| - 1];
      RunKeepsInv(moves[..|moves| - 1]);
      StepKeepsInv(Run(INITIAL, moves[..|moves| - 1]).value, last.tid, last.action);
    }
  }

  // ---------------------------------------------------------------------------
  // What every interleaving guarantees
  // ---------------------------------------------------------------------------

  /** At most one thread is inside. */
  lemma MutualExclusion(moves: seq<Move>, t: Tid, u: Tid)
    requires Run(INITIAL, moves).Some?
    requires var s := Run(INITIAL, moves).value; s.At(t).Inside() && s.At(u).Inside()
    ensures t == u == Run(INITIAL, moves).value.holder
  {
    RunKeepsInv(moves);
  }

  /**
   The unlocked comparison in lock() is safe: a thread reads its own id if and only if it is inside
   already, and then it holds the inner mutex. The same holds of owns_lock() between calls.
   */
  lemma OwnIdMeansInside(moves: seq<Move>, t: Tid)
    requires t != 0 && Run(INITIAL, moves).Some?
    ensures var s := Run(INITIAL, moves).value;
            && (s.owner == t ==> s.holder == t)
            && (s.At(t).pc.LoadOwner? || s.At(t).pc.Outside? ==> (s.owner == t <==> s.At(t).Inside()))
  {
    RunKeepsInv(moves);
  }

  /** Between calls of the thread inside, the depth counts its locks less its unlocks. */
  lemma DepthIsNesting(moves: seq<Move>, t: Tid)
    requires Run(INITIAL, moves).Some?
    requires var s := Run(INITIAL, moves).value; s.At(t).pc.Outside? && s.At(t).Inside()
    ensures var s := Run(INITIAL, moves).value; s.depth == s.At(t).locked - s.At(t).unlocked
  {
    RunKeepsInv(moves);
  }

  /** About to load or store the depth. */
  predicate AtDepth(pc: Pc) {
    pc.LoadDepthToLock? || pc.StoreDepthToLock? || pc.StoreFirstDepth? || pc.LoadDepthToUnlock? || pc.StoreDepthToUnlock?
  }

  /** The depth, a plain int, is never raced for: only the holder of the inner mutex is about to touch it. */
  lemma NoRaceOnDepth(moves: seq<Move>, t: Tid, action: Action)
    requires Run(INITIAL, moves).Some?
    ensures var s := Run(INITIAL, moves).value;
            && (AtDepth(s.At(t).pc) ==> t == s.holder)
            && (Step(s, t, action).Some? && Step(s, t, action).value.depth != s.depth ==> AtDepth(s.At(t).pc))
  {
    RunKeepsInv(moves);
  }

  /** No update of the depth is lost: what is stored is one off what is there at that moment. */
  lemma DepthMovesByOne(moves: seq<Move>, t: Tid)
    requires Run(INITIAL, moves).Some? && Step(Run(INITIAL, moves).value, t, Continue).Some?
    ensures var s := Run(INITIAL, moves).value; var s' := Step(s, t, Continue).value;
            match s.At(t).pc
            case StoreDepthToLock(_) => s'.depth == s.depth + 1
            case StoreFirstDepth => s'.depth == s.depth + 1
            case StoreDepthToUnlock(_) => s'.depth == s.depth - 1
            case _ => s'.depth == s.depth
  {
    RunKeepsInv(moves);
  }

  /** The three debug checks of the class: in lock(), in unlock() and in the destructor. */
  lemma ChecksHold(moves: seq<Move>, t: Tid)
    requires Run(INITIAL, moves).Some?
    ensures var s := Run(INITIAL, moves).value;
            && (s.At(t).pc.StoreOwner? ==> s.depth == 0)
            && (s.At(t).pc.LoadDepthToUnlock? ==> s.owner == t)
            && ((forall u: Tid :: s.At(u).pc.Outside? && !s.At(u).Inside()) ==> s.owner == 0 && s.depth == 0 && s.holder == 0)
  {
    RunKeepsInv(moves);
  }

  /**
   No call gets stuck: a thread in a call can go on, unless it waits for the inner mutex while
   another thread holds it, and that one is inside between calls or can go on itself.
   */
  lemma NoDeadlock(moves: seq<Move>, t: Tid)
    requires t != 0 && Run(INITIAL, moves).Some? && !Run(INITIAL, moves).value.At(t).pc.Outside?
    ensures var s := Run(INITIAL, moves).value; var u := s.holder;
            || Step(s, t, Continue).Some?
            || (u != 0 && u != t && s.At(t).pc.Acquire?
                && ((s.At(u).pc.Outside? && s.At(u).Inside()) || Step(s, u, Continue).Some?))
  {
    RunKeepsInv(moves);
  }
}


/** The class, as one thread runs a call. Other threads make their moves while it waits for the inner mutex. */
module RecursiveMutexClass {
  import opened MutexMachine
  import opened Options

  /** What a thread sees after several of its steps in a row. */
  function Acts(v: View, t: Tid, actions: seq<Action>): Option<View>
    decreases |actions|
  {
    if actions == [] then Some(v)
    else
      match Act(v, t, actions[0])
      case None => None
      case Some(next) => Acts(next, t, actions[1..])
  }

  function MovesOf(t: Tid, actions: seq<Action>): seq<Move> {
    seq(|actions|, i requires 0 <= i < |actions| => Move(t, actions[i]))
  }

  lemma {:induction false} RunAlone(before: seq<Move>, t: Tid, actions: seq<Action>)
    requires t != 0 && Run(INITIAL, before).Some? && Acts(Run(INITIAL, before).value.Seen(t), t, actions).Some?
    ensures var after := Run(INITIAL, before + MovesOf(t, actions));
            after.Some? && Acts(Run(INITIAL, before).value.Seen(t), t, actions) == Some(after.value.Seen(t))
    decreases |actions|
  {
    hide Act;
    if actions == [] {
      assert before + MovesOf(t, actions) == before;
    } else {
      var next := before + [Move(t, actions[0])];
      assert next[..|next| - 1] == before;
      RunAlone(next, t, actions[1..]);
      assert next + MovesOf(t, actions[1..]) == before + MovesOf(t, actions);
    }
  }

  /** A call of lock() by the owner. */
  const RELOCK := [CallLock, Continue, Continue, Continue]

  /** A call of lock() by another thread, up to the inner mutex and from there on. */
  const ARRIVE := [CallLock, Continue]
  const ENTER := [Continue, Continue, Continue]

  const INNER_UNLOCK := [CallUnlock, Continue, Continue]
  const LAST_UNLOCK := [CallUnlock, Continue, Continue, Continue, Continue]

  lemma Relocks(v: View, t: Tid)
    requires v.thread.pc.Outside? && v.owner == t
    ensures Acts(v, t, RELOCK) == Some(v.Locked().(depth := v.depth + 1))
  {
    var v1 := Act(v, t, CallLock).value;
    var v2 := Act(v1, t, Continue).value;
    var v3 := Act(v2, t, Continue).value;
    var v4 := Act(v3, t, Continue).value;
    hide Act;
    assert Acts(v4, t, []) == Some(v4);
    assert Acts(v3, t, [Continue]) == Some(v4);
    assert Acts(v2, t, [Continue, Continue]) == Some(v4);
    assert Acts(v1, t, [Continue, Continue, Continue]) == Some(v4);
  }

  lemma Arrives(v: View, t: Tid)
    requires v.thread.pc.Outside? && v.owner != t
    ensures Acts(v, t, ARRIVE) == Some(v.Goes(Acquire))
  {
    var v1 := Act(v, t, CallLock).value;
    var v2 := Act(v1, t, Continue).value;
    hide Act;
    assert Acts(v2, t, []) == Some(v2);
    assert Acts(v1, t, [Continue]) == Some(v2);
  }

  lemma Enters(v: View, t: Tid)
    requires v.thread.pc.Acquire? && v.holder == 0
    ensures Acts(v, t, ENTER) == Some(v.Locked().(owner := t, holder := t, depth := 1))
  {
    var v1 := Act(v, t, Continue).value;
    var v2 := Act(v1, t, Continue).value;
    var v3 := Act(v2, t, Continue).value;
    hide Act;
    assert Acts(v3, t, []) == Some(v3);
    assert Acts(v2, t, [Continue]) == Some(v3);
    assert Acts(v1, t, [Continue, Continue]) == Some(v3);
  }

  predicate NoneBy(t: Tid, moves: seq<Move>) {
    forall i | 0 <= i < |moves| :: moves[i].tid != t
  }

  /** What a thread is about to do does not depend on the moves of others. */
  lemma {:induction false} OthersLeaveAlone(before: seq<Move>, meanwhile: seq<Move>, t: Tid)
    requires NoneBy(t, meanwhile) && Run(INITIAL, before + meanwhile).Some?
    ensures Run(INITIAL, before).Some?
    ensures Run(INITIAL, before + meanwhile).value.At(t) == Run(INITIAL, before).value.At(t)
    decreases |meanwhile|
  {
    hide Step;
    if meanwhile == [] {
      assert before + meanwhile == before;
    } else {
      var earlier, last := meanwhile[..|meanwhile| - 1], meanwhile[|meanwhile| - 1];
      var all := before + meanwhile;
      assert all[..|all| - 1] == before + earlier && all[|all| - 1] == last;
      OthersLeaveAlone(before, earlier, t);
      StepIsLocal(Run(INITIAL, before + earlier).value, last.tid, last.action, t);
    }
  }

  function Unlocking(v: View): View {
    v.(thread := Thread(Outside, v.thread.locked, v.thread.unlocked + 1), depth := v.depth - 1)
  }

  lemma UnlocksInner(v: View, t: Tid)
    requires v.thread.pc.Outside? && v.thread.Inside() && v.depth > 1
    ensures Acts(v, t, INNER_UNLOCK) == Some(Unlocking(v))
  {
    var v1 := Act(v, t, CallUnlock).value;
    var v2 := Act(v1, t, Continue).value;
    var v3 := Act(v2, t, Continue).value;
    hide Act;
    assert Acts(v3, t, []) == Some(v3);
    assert Acts(v2, t, [Continue]) == Some(v3);
    assert Acts(v1, t, [Continue, Continue]) == Some(v3);
  }

  lemma UnlocksLast(v: View, t: Tid)
    requires v.thread.pc.Outside? && v.thread.Inside() && v.depth == 1
    ensures Acts(v, t, LAST_UNLOCK) == Some(Unlocking(v).(owner := 0, holder := 0))
  {
    var v1 := Act(v, t, CallUnlock).value;
    var v2 := Act(v1, t, Continue).value;
    var v3 := Act(v2, t, Continue).value;
    var v4 := Act(v3, t, Continue).value;
    var v5 := Act(v4, t, Continue).value;
    hide Act;
    assert Acts(v5, t, []) == Some(v5);
    assert Acts(v4, t, [Continue]) == Some(v5);
    assert Acts(v3, t, [Continue, Continue]) == Some(v5);
    assert Acts(v2, t, [Continue, Continue, Continue]) == Some(v5);
    assert Acts(v1, t, [Continue, Continue, Continue, Continue]) == Some(v5);
  }

  class RecursiveMutex {
    var owner: Tid
    var recursionDepth: int
    var mutexHolder: Tid
    var moves: seq<Move>

    /** The machine, at the end of the moves made so far. */
    ghost function Now(): Option<State>
      reads this
    {
      Run(INITIAL, moves)
    }

    ghost predicate Valid()
      reads this
    {
      && Now().Some?
      && owner == Now().value.owner && recursionDepth == Now().value.depth && mutexHolder == Now().value.holder
    }

    constructor ()
      ensures Valid() && Now().value == INITIAL
    {
      owner, recursionDepth, mutexHolder, moves := 0, 0, 0, [];
    }

    /** The moves by which others free the inner mutex for a thread that waits for it. */
    ghost predicate ComesFree(t: Tid, meanwhile: seq<Move>)
      reads this
    {
      NoneBy(t, meanwhile) &&
      var later := Run(INITIAL, moves + MovesOf(t, ARRIVE) + meanwhile);
      later.Some? && later.value.holder == 0
    }

    /** A call of lock(). A thread that is not the owner waits while others make the moves `meanwhile`. */
    method Lock(t: Tid, meanwhile: seq<Move>)
      requires Valid() && t != 0 && Now().value.At(t).pc.Outside? && (owner == t || ComesFree(t, meanwhile))
      modifies this
      ensures Valid() && owner == mutexHolder == t
      ensures recursionDepth == if old(owner) == t then old(recursionDepth) + 1 else 1
      ensures moves == if old(owner) == t then old(moves) + MovesOf(t, RELOCK)
                       else old(moves) + MovesOf(t, ARRIVE) + meanwhile + MovesOf(t, ENTER)
      ensures Now().value.At(t) == old(Now().value.Seen(t).Locked().thread)
    {
      RunKeepsInv(moves);
      hide Run, Step, Act, Acts;
      ghost var v := Now().value.Seen(t);
      if owner == t {
        Relocks(v, t);
        RunAlone(moves, t, RELOCK);
        moves := moves + MovesOf(t, RELOCK);
        recursionDepth := recursionDepth + 1;
        return;
      }
      Arrives(v, t);
      RunAlone(moves, t, ARRIVE);
      moves := moves + MovesOf(t, ARRIVE);
      OthersLeaveAlone(moves, meanwhile, t);
      Wait(meanwhile);
      Enters(Now().value.Seen(t), t);
      RunAlone(moves, t, ENTER);
      moves := moves + MovesOf(t, ENTER);
      mutexHolder := t;
      owner := t;
      recursionDepth := 1;
    }

    /** Other threads go on. */
    method Wait(meanwhile: seq<Move>)
      requires Run(INITIAL, moves + meanwhile).Some?
      modifies this
      ensures moves == old(moves) + meanwhile && Valid()
    {
      moves := moves + meanwhile;
      var s := Run(INITIAL, moves).value;
      owner, recursionDepth, mutexHolder := s.owner, s.depth, s.holder;
    }

    method Unlock(t: Tid)
      requires Valid() && t != 0 && Now().value.At(t).pc.Outside? && Now().value.At(t).Inside()
      modifies this
      ensures Valid() && recursionDepth == old(recursionDepth) - 1
      ensures owner == mutexHolder == if old(recursionDepth) == 1 then 0 else t
      ensures moves == old(moves) + MovesOf(t, if old(recursionDepth) == 1 then LAST_UNLOCK else INNER_UNLOCK)
      ensures Now().value.At(t) == old(Unlocking(Now().value.Seen(t)).thread)
    {
      RunKeepsInv(moves);
      hide Run, Step, Act, Acts;
      ghost var v := Now().value.Seen(t);
      recursionDepth := recursionDepth - 1;
      if recursionDepth > 0 {
        UnlocksInner(v, t);
        RunAlone(moves, t, INNER_UNLOCK);
        moves := moves + MovesOf(t, INNER_UNLOCK);
        return;
      }
      UnlocksLast(v, t);
      RunAlone(moves, t, LAST_UNLOCK);
      moves := moves + MovesOf(t, LAST_UNLOCK);
      owner := 0;
      mutexHolder := 0;
    }

    method OwnsLock(t: Tid) returns (owns: bool)
      requires Valid() && t != 0 && Now().value.At(t).pc.Outside?
      ensures owns <==> Now().value.At(t).Inside()
    {
      OwnIdMeansInside(moves, t);
      owns := owner == t;
    }
  }
}
