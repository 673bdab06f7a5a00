// The ring of blocks between the two threads of the multithreaded match finder: a producer that
// can be started, stopped and started again, and a consumer, with two counting semaphores, three
// events and a critical section, which others may enter too. Every access to something shared is one
// atomic step; anyone may take the next one.

module BlockRing {
  import opened Words

  // The consumer: between calls it is Idle (nothing started) or Holds a block; while it has no use for
  // the block it may be Outside the critical section.
  datatype Cons =
    | Idle
    | NumOne | ClearStop | ClearExit | ResetStarted | ResetStopped | SetStart | WaitStarted
    | WaitFilled | EnterCs
    | Holds | Outside | Reenter
    | LeaveCs | NumNext | FreeNext
    | SetStop | StopLeaveCs | SetStopOutside | StopFree | WaitStopped
    | TestDrained | DrainFilled | DrainFree | NeedStart
    | SetExit | ExitStart | Join | Closed

  datatype Prod =
    | WaitStart | SetStarted | TestExit | TestStop
    | PutNum | SetStopped
    | EnterMove | Moving
    | WaitFree | Fill | ReleaseFilled
    | Ended

  datatype Owner = Nobody | Consumer | Producer | Other

  // num: the shared block counter. nb, my: the local counters of the producer and of a stop.
  // ring: for each place the number of the block in it.
  datatype State = State(
    c: Cons, p: Prod, num: nat, nb: nat, my: nat, free: nat, filled: nat,
    stopWriting: bool, exit: bool, canStart: bool, wasStarted: bool, wasStopped: bool, cs: Owner, ring: seq<nat>)

  // What the consumer wants when it is between calls.
  datatype Wish = Go | Stop | Pause

  predicate ConsEnabled(s: State) {
    match s.c
    case WaitStarted => s.wasStarted
    case WaitFilled => s.filled > 0
    case EnterCs => s.cs == Nobody
    case Reenter => s.cs == Nobody
    case WaitStopped => s.wasStopped
    case DrainFilled => s.filled > 0
    case Join => s.p == Ended
    case Closed => false
    case _ => true
  }

  function ConsStep(s: State, wish: Wish): State
    requires ConsEnabled(s)
  {
    match s.c
    case Idle => s.(c := if wish == Go then NumOne else SetExit)
    case NumOne => s.(c := ClearStop, num := 1)
    case ClearStop => s.(c := ClearExit, stopWriting := false)
    case ClearExit => s.(c := ResetStarted, exit := false)
    case ResetStarted => s.(c := ResetStopped, wasStarted := false)
    case ResetStopped => s.(c := SetStart, wasStopped := false)
    case SetStart => s.(c := WaitStarted, canStart := true)
    case WaitStarted => s.(c := WaitFilled, wasStarted := false)
    case WaitFilled => s.(c := EnterCs, filled := s.filled - 1)
    case EnterCs => s.(c := Holds, cs := Consumer)
    case Holds =>
      if wish == Go then s.(c := LeaveCs)
      else if wish == Pause then s.(c := Outside, cs := Nobody)
      else s.(c := SetStop, my := s.num)
    case Outside => if wish == Stop then s.(c := SetStopOutside, my := s.num) else s.(c := Reenter)
    case Reenter => s.(c := Holds, cs := Consumer)
    case LeaveCs => s.(c := NumNext, cs := Nobody)
    case NumNext => s.(c := FreeNext, num := s.num + 1)
    case FreeNext => s.(c := WaitFilled, free := s.free + 1)
    case SetStop => s.(c := StopLeaveCs, stopWriting := true)
    case StopLeaveCs => s.(c := StopFree, cs := Nobody)
    case SetStopOutside => s.(c := StopFree, stopWriting := true)
    case StopFree => s.(c := WaitStopped, free := s.free + 1)
    case WaitStopped => s.(c := TestDrained, wasStopped := false)
    case TestDrained => s.(c := if s.my != s.num then DrainFilled else NeedStart, my := s.my + 1)
    case DrainFilled => s.(c := DrainFree, filled := s.filled - 1)
    case DrainFree => s.(c := TestDrained, free := s.free + 1)
    case NeedStart => s.(c := Idle)
    case SetExit => s.(c := ExitStart, exit := true)
    case ExitStart => s.(c := Join, canStart := true)
    case Join => s.(c := Closed)
    case Closed => s
  }

  predicate ProdEnabled(s: State) {
    match s.p
    case WaitStart => s.canStart
    case EnterMove => s.cs == Nobody
    case WaitFree => s.free > 0
    case Ended => false
    case _ => true
  }

  function ProdStep(s: State, move: bool): State
    requires ProdEnabled(s) && |s.ring| > 0
  {
    match s.p
    case WaitStart => s.(p := SetStarted, canStart := false)
    case SetStarted => s.(p := TestExit, wasStarted := true)
    case TestExit => s.(p := if s.exit then Ended else TestStop)
    case TestStop => s.(p := if s.stopWriting then PutNum else if move then EnterMove else WaitFree)
    case PutNum => s.(p := SetStopped, num := s.nb)
    case SetStopped => s.(p := WaitStart, wasStopped := true, nb := 0)
    case EnterMove => s.(p := Moving, cs := Producer)
    case Moving => s.(p := TestExit, cs := Nobody)
    case WaitFree => s.(p := Fill, free := s.free - 1)
    case Fill => s.(p := ReleaseFilled, nb := s.nb + 1, ring := s.ring[s.nb % |s.ring| := s.nb])
    case ReleaseFilled => s.(p := TestExit, filled := s.filled + 1)
    case Ended => s
  }

  function Initial(n: nat): State {
    State(Idle, WaitStart, 0, 0, 0, n, 0, false, false, false, false, false, Nobody, seq(n, _ => 0))
  }

  // Somebody else enters or leaves the critical section.
  predicate OtherEnabled(s: State) { s.cs == Nobody || s.cs == Other }

  function OtherStep(s: State): State { s.(cs := if s.cs == Nobody then Other else Nobody) }

  datatype Move = ByCons(wish: Wish) | ByProd(move: bool) | ByOther

  predicate Enabled(s: State, m: Move) {
    match m
    case ByCons(_) => ConsEnabled(s)
    case ByProd(_) => ProdEnabled(s) && |s.ring| > 0
    case ByOther => OtherEnabled(s)
  }

  function Step(s: State, m: Move): State
    requires Enabled(s, m)
  {
    match m
    case ByCons(wish) => ConsStep(s, wish)
    case ByProd(move) => ProdStep(s, move)
    case ByOther => OtherStep(s)
  }

  ghost predicate IsRun(n: nat, moves: seq<Move>, s: State)
    decreases |moves|
  {
    if moves == [] then s == Initial(n)
    else
      var m := moves[|moves| - 1];
      exists s0 :: IsRun(n, moves[..|moves| - 1], s0) && Enabled(s0, m) && s == Step(s0, m)
  }

  // ----- Phases ------------------------------------------------------------------------------

  predicate Starting(c: Cons) {
    c == NumOne || c == ClearStop || c == ClearExit || c == ResetStarted || c == ResetStopped || c == SetStart
  }

  predicate Running(c: Cons) {
    c == WaitStarted || c == WaitFilled || c == EnterCs || c == Holds || c == LeaveCs || c == NumNext || c == FreeNext
    || c == Outside || c == Reenter || c == SetStop || c == SetStopOutside || Stopping(c)
  }

  predicate Stopping(c: Cons) { c == StopLeaveCs || c == StopFree || c == WaitStopped }

  predicate Draining(c: Cons) { c == TestDrained || c == DrainFilled || c == DrainFree || c == NeedStart }

  // Blocks the consumer has taken and given back since the start.
  function Taken(s: State): int {
    if s.c == WaitStarted || s.c == WaitFilled || s.c == FreeNext then s.num - 1
    else if s.c == EnterCs || s.c == Holds || s.c == LeaveCs || s.c == NumNext then s.num
    else if s.c == Outside || s.c == Reenter then s.num
    else if s.c == DrainFilled then s.my - 1
    else if s.c == NeedStart then s.my - 1
    else s.my
  }

  function Returned(s: State): int {
    if s.c == EnterCs || s.c == Holds || s.c == LeaveCs || s.c == NumNext || s.c == FreeNext
       || s.c == Outside || s.c == Reenter || s.c == SetStop || s.c == SetStopOutside || s.c == StopLeaveCs
       || s.c == StopFree || s.c == DrainFree
    then Taken(s) - 1
    else Taken(s)
  }

  // Whether the producer has been stopped and has not been started again.
  predicate Stopped(s: State) { Draining(s.c) || (Stopping(s.c) && s.p == WaitStart) }

  // Places the producer has claimed, and blocks it has delivered, since the start.
  function Claimed(s: State): int { if Stopped(s) then s.num else s.nb + if s.p == Fill then 1 else 0 }

  function Delivered(s: State): int { if Stopped(s) then s.num else s.nb - if s.p == ReleaseFilled then 1 else 0 }

  predicate Counts(s: State, n: nat) {
    && s.free == n - Claimed(s) + Returned(s) && s.filled == Delivered(s) - Taken(s)
    && 0 <= Returned(s) && Claimed(s) <= Returned(s) + n
  }

  // What the two threads know of each other: before and after the consumer's use of the ring.
  predicate MeetIdle(s: State, n: nat) {
    && (s.c == Idle || Starting(s.c) || s.c == SetExit || s.c == ExitStart ==>
          s.p == WaitStart && !s.canStart && s.nb == 0 && s.free == n && s.filled == 0)
    && (s.c == ClearExit || s.c == ResetStarted || s.c == ResetStopped || s.c == SetStart ==>
          !s.stopWriting && s.num == 1)
    && (s.c == ClearStop ==> s.num == 1)
    && (s.c == ResetStarted || s.c == ResetStopped || s.c == SetStart ==> !s.exit)
    && (s.c == ResetStopped || s.c == SetStart ==> !s.wasStarted)
    && (s.c == SetStart ==> !s.wasStopped)
    && (s.c == Join || s.c == Closed ==>
          && s.exit && (s.p == WaitStart || s.p == SetStarted || s.p == TestExit || s.p == Ended)
          && (s.p == WaitStart ==> s.canStart))
    && (s.c == ExitStart ==> s.exit)
    && (s.c == Closed ==> s.p == Ended)
    && (s.p == Ended ==> s.c == Join || s.c == Closed)
  }

  // While the ring is started.
  predicate MeetStart(s: State) {
    && (s.c == WaitStarted && s.p == WaitStart ==> s.canStart && !s.wasStarted)
    && (s.c == WaitStarted && s.p == SetStarted ==> !s.wasStarted)
    && (s.c == WaitStarted && s.p != WaitStart ==> !s.canStart && (s.p != SetStarted ==> s.wasStarted))
    && (s.c == WaitStarted && (s.p == WaitStart || s.p == SetStarted) ==> s.nb == 0)
    && (s.c == WaitStarted ==> s.num == 1)
  }

  // While it is in use and while it is stopped.
  predicate MeetUse(s: State, n: nat) {
    && (Running(s.c) || Draining(s.c) ==> Counts(s, n) && !s.exit)
    && (Running(s.c) && s.c != WaitStarted && !Stopping(s.c) ==> s.p != WaitStart && s.p != SetStarted && !s.canStart)
    && (Running(s.c) && !Stopping(s.c) ==> s.num >= 1)
    && (s.c == FreeNext ==> s.num >= 2)
    && (Running(s.c) ==> (s.stopWriting <==> Stopping(s.c)))
    && (s.p == PutNum || s.p == SetStopped ==> Stopping(s.c))
    && (s.c == SetStop || s.c == SetStopOutside || Stopping(s.c) ==> s.my >= 1)
    && (Stopping(s.c) ==> s.p != SetStarted && !s.canStart && (s.p == WaitStart <==> s.wasStopped))
    && (Running(s.c) && !Stopping(s.c) ==> !s.wasStopped)
    && (Stopping(s.c) && s.p == WaitStart ==> s.nb == 0)
    && (s.c == WaitStopped && s.p == WaitFree ==> s.free >= 1)
    && (s.p == SetStopped ==> s.num == s.nb)
    && (Draining(s.c) ==> s.p == WaitStart && !s.canStart && s.nb == 0)
    && (s.c == DrainFilled || s.c == DrainFree ==> s.my <= s.num)
    && (s.c == NeedStart ==> s.my == s.num + 1)
  }

  predicate Meet(s: State, n: nat) { MeetIdle(s, n) && MeetStart(s) && MeetUse(s, n) }

  // The critical section.
  predicate Section(s: State) {
    && (s.cs == Consumer <==> s.c == Holds || s.c == LeaveCs || s.c == SetStop || s.c == StopLeaveCs)
    && (s.cs == Producer <==> s.p == Moving)
  }

  predicate Inv(s: State, n: nat) {
    n >= 1 && |s.ring| == n && Meet(s, n) && Section(s)
  }

  function Filled(s: State): int { if Stopped(s) then s.num else s.nb }

  predicate InUse(c: Cons) { Running(c) || Draining(c) }

  // The consumer only ever gives blocks back, and takes nothing away from what was filled.
  predicate Steady(s: State, s': State) {
    && s'.ring == s.ring
    && (InUse(s'.c) && InUse(s.c) ==> Returned(s) <= Returned(s') && Filled(s') == Filled(s))
    && (InUse(s'.c) && !InUse(s.c) ==> Returned(s') == Filled(s') == 0)
  }

  lemma Starts(n: nat)
    requires n >= 1
    ensures Inv(Initial(n), n)
  {}

  lemma ConsKeepsIdle(s: State, n: nat, wish: Wish)
    requires Inv(s, n) && ConsEnabled(s) && s.c == Idle
    ensures Inv(ConsStep(s, wish), n) && Steady(s, ConsStep(s, wish))
  {}

  lemma ConsKeepsClear(s: State, n: nat, wish: Wish)
    requires Inv(s, n) && ConsEnabled(s) && (s.c == NumOne || s.c == ClearStop || s.c == ClearExit)
    ensures Inv(ConsStep(s, wish), n) && Steady(s, ConsStep(s, wish))
  {}

  lemma ConsKeepsStart(s: State, n: nat, wish: Wish)
    requires Inv(s, n) && ConsEnabled(s) && (s.c == ResetStarted || s.c == ResetStopped || s.c == SetStart)
    ensures Inv(ConsStep(s, wish), n) && Steady(s, ConsStep(s, wish))
  {}

  lemma ConsKeepsExit(s: State, n: nat, wish: Wish)
    requires Inv(s, n) && ConsEnabled(s) && (s.c == SetExit || s.c == ExitStart)
    ensures Inv(ConsStep(s, wish), n) && Steady(s, ConsStep(s, wish))
  {}

  lemma ConsKeepsJoin(s: State, n: nat, wish: Wish)
    requires Inv(s, n) && ConsEnabled(s) && s.c == Join
    ensures Inv(ConsStep(s, wish), n) && Steady(s, ConsStep(s, wish))
  {}

  lemma ConsKeepsWait(s: State, n: nat, wish: Wish)
    requires Inv(s, n) && ConsEnabled(s) && (s.c == WaitStarted || s.c == WaitFilled)
    ensures Inv(ConsStep(s, wish), n) && Steady(s, ConsStep(s, wish))
  {}

  lemma ConsKeepsOutside(s: State, n: nat, wish: Wish)
    requires Inv(s, n) && ConsEnabled(s) && s.c == Outside
    ensures Inv(ConsStep(s, wish), n) && Steady(s, ConsStep(s, wish))
  {}

  lemma ConsKeepsReenter(s: State, n: nat, wish: Wish)
    requires Inv(s, n) && ConsEnabled(s) && s.c == Reenter
    ensures Inv(ConsStep(s, wish), n) && Steady(s, ConsStep(s, wish))
  {}

  lemma ConsKeepsSetStopOutside(s: State, n: nat, wish: Wish)
    requires Inv(s, n) && ConsEnabled(s) && s.c == SetStopOutside
    ensures Inv(ConsStep(s, wish), n) && Steady(s, ConsStep(s, wish))
  {}

  lemma ConsKeepsEnterCs(s: State, n: nat, wish: Wish)
    requires Inv(s, n) && ConsEnabled(s) && s.c == EnterCs
    ensures Inv(ConsStep(s, wish), n) && Steady(s, ConsStep(s, wish))
  {}

  lemma ConsKeepsHolds(s: State, n: nat, wish: Wish)
    requires Inv(s, n) && ConsEnabled(s) && s.c == Holds
    ensures Inv(ConsStep(s, wish), n) && Steady(s, ConsStep(s, wish))
  {}

  lemma ConsKeepsNext(s: State, n: nat, wish: Wish)
    requires Inv(s, n) && ConsEnabled(s) && (s.c == NumNext || s.c == FreeNext)
    ensures Inv(ConsStep(s, wish), n) && Steady(s, ConsStep(s, wish))
  {}

  lemma ConsKeepsLeave(s: State, n: nat, wish: Wish)
    requires Inv(s, n) && ConsEnabled(s) && (s.c == LeaveCs || s.c == SetStop)
    ensures Inv(ConsStep(s, wish), n) && Steady(s, ConsStep(s, wish))
  {}

  lemma ConsKeepsStop(s: State, n: nat, wish: Wish)
    requires Inv(s, n) && ConsEnabled(s) && (s.c == StopLeaveCs || s.c == StopFree)
    ensures Inv(ConsStep(s, wish), n) && Steady(s, ConsStep(s, wish))
  {}

  lemma ConsKeepsStopped(s: State, n: nat, wish: Wish)
    requires Inv(s, n) && ConsEnabled(s) && s.c == WaitStopped
    ensures Inv(ConsStep(s, wish), n) && Steady(s, ConsStep(s, wish))
  {}

  lemma ConsKeepsDrain(s: State, n: nat, wish: Wish)
    requires Inv(s, n) && ConsEnabled(s) && (s.c == TestDrained || s.c == NeedStart)
    ensures Inv(ConsStep(s, wish), n) && Steady(s, ConsStep(s, wish))
  {}

  lemma ConsKeepsDrained(s: State, n: nat, wish: Wish)
    requires Inv(s, n) && ConsEnabled(s) && (s.c == DrainFilled || s.c == DrainFree)
    ensures Inv(ConsStep(s, wish), n) && Steady(s, ConsStep(s, wish))
  {}

  lemma ProdKeepsStart(s: State, n: nat, move: bool)
    requires Inv(s, n) && ProdEnabled(s) && (s.p == WaitStart || s.p == SetStarted)
    ensures Inv(ProdStep(s, move), n)
  {}

  lemma ProdKeepsTestExit(s: State, n: nat, move: bool)
    requires Inv(s, n) && ProdEnabled(s) && s.p == TestExit
    ensures Inv(ProdStep(s, move), n)
  {}

  lemma ProdKeepsTestStop(s: State, n: nat, move: bool)
    requires Inv(s, n) && ProdEnabled(s) && s.p == TestStop
    ensures Inv(ProdStep(s, move), n)
  {}

  lemma ProdKeepsStop(s: State, n: nat, move: bool)
    requires Inv(s, n) && ProdEnabled(s) && (s.p == PutNum || s.p == SetStopped || s.p == EnterMove || s.p == Moving)
    ensures Inv(ProdStep(s, move), n)
  {}

  lemma ProdKeepsTake(s: State, n: nat, move: bool)
    requires Inv(s, n) && ProdEnabled(s) && s.p == WaitFree
    ensures Inv(ProdStep(s, move), n)
  {}

  lemma ProdKeepsFill(s: State, n: nat, move: bool)
    requires Inv(s, n) && ProdEnabled(s) && s.p == Fill
    ensures Inv(ProdStep(s, move), n)
  {}

  lemma ProdKeepsFilled(s: State, n: nat, move: bool)
    requires Inv(s, n) && ProdEnabled(s) && s.p == ReleaseFilled
    ensures Inv(ProdStep(s, move), n)
  {}

  lemma ConsKeeps(s: State, n: nat, wish: Wish)
    requires Inv(s, n) && ConsEnabled(s)
    ensures Inv(ConsStep(s, wish), n) && Steady(s, ConsStep(s, wish))
  {
    hide Inv, ConsStep, Steady;
    match s.c
    case Idle => ConsKeepsIdle(s, n, wish);
    case NumOne => ConsKeepsClear(s, n, wish);
    case ClearStop => ConsKeepsClear(s, n, wish);
    case ClearExit => ConsKeepsClear(s, n, wish);
    case ResetStarted => ConsKeepsStart(s, n, wish);
    case ResetStopped => ConsKeepsStart(s, n, wish);
    case SetStart => ConsKeepsStart(s, n, wish);
    case SetExit => ConsKeepsExit(s, n, wish);
    case ExitStart => ConsKeepsExit(s, n, wish);
    case Join => ConsKeepsJoin(s, n, wish);
    case WaitStarted => ConsKeepsWait(s, n, wish);
    case WaitFilled => ConsKeepsWait(s, n, wish);
    case EnterCs => ConsKeepsEnterCs(s, n, wish);
    case Holds => ConsKeepsHolds(s, n, wish);
    case Outside => ConsKeepsOutside(s, n, wish);
    case Reenter => ConsKeepsReenter(s, n, wish);
    case SetStopOutside => ConsKeepsSetStopOutside(s, n, wish);
    case NumNext => ConsKeepsNext(s, n, wish);
    case FreeNext => ConsKeepsNext(s, n, wish);
    case LeaveCs => ConsKeepsLeave(s, n, wish);
    case SetStop => ConsKeepsLeave(s, n, wish);
    case StopLeaveCs => ConsKeepsStop(s, n, wish);
    case StopFree => ConsKeepsStop(s, n, wish);
    case WaitStopped => ConsKeepsStopped(s, n, wish);
    case TestDrained => ConsKeepsDrain(s, n, wish);
    case NeedStart => ConsKeepsDrain(s, n, wish);
    case DrainFilled => ConsKeepsDrained(s, n, wish);
    case DrainFree => ConsKeepsDrained(s, n, wish);
    case Closed =>
  }

  lemma ProdKeeps(s: State, n: nat, move: bool)
    requires Inv(s, n) && ProdEnabled(s)
    ensures |s.ring| == n >= 1 && Inv(ProdStep(s, move), n)
  {
    hide Meet, Section, ProdStep;
    if s.p == WaitStart || s.p == SetStarted {
      ProdKeepsStart(s, n, move);
    } else if s.p == TestExit {
      ProdKeepsTestExit(s, n, move);
    } else if s.p == TestStop {
      ProdKeepsTestStop(s, n, move);
    } else if s.p == WaitFree {
      ProdKeepsTake(s, n, move);
    } else if s.p == Fill {
      ProdKeepsFill(s, n, move);
    } else if s.p == ReleaseFilled {
      ProdKeepsFilled(s, n, move);
    } else {
      ProdKeepsStop(s, n, move);
    }
  }

  lemma OtherKeeps(s: State, n: nat)
    requires Inv(s, n) && OtherEnabled(s)
    ensures Inv(OtherStep(s), n) && Returned(OtherStep(s)) == Returned(s) && Filled(OtherStep(s)) == Filled(s)
  {
    hide MeetIdle, MeetStart, MeetUse, Returned, Filled;
    OtherMeets(s, n, OtherStep(s).cs);
  }

  // The critical section is nothing that the two know of each other.
  lemma OtherMeets(s: State, n: nat, cs: Owner)
    ensures MeetIdle(s.(cs := cs), n) == MeetIdle(s, n) && MeetStart(s.(cs := cs)) == MeetStart(s)
    ensures MeetUse(s.(cs := cs), n) == MeetUse(s, n)
    ensures Returned(s.(cs := cs)) == Returned(s) && Filled(s.(cs := cs)) == Filled(s)
  {}

  // ----- What is in the ring ----------------------------------------------------------------

  // Every block that has been filled and not given back yet is in its place.
  ghost predicate Data(s: State, n: nat) {
    n >= 1 && |s.ring| == n && forall j: nat :: Returned(s) <= j < Filled(s) ==> s.ring[j % n] == j
  }

  lemma ConsData(s: State, n: nat, wish: Wish)
    requires Inv(s, n) && ConsEnabled(s) && (InUse(s.c) ==> Data(s, n))
    ensures InUse(ConsStep(s, wish).c) ==> Data(ConsStep(s, wish), n)
  {
    hide Meet, Section, Returned, Filled;
    ConsKeeps(s, n, wish);
  }

  predicate SameUse(s: State, s': State) {
    s'.c == s.c && s'.ring == s.ring && (InUse(s.c) ==> Returned(s') == Returned(s) && Filled(s') == Filled(s))
  }

  lemma ProdSteadyStop(s: State, n: nat, move: bool)
    requires Inv(s, n) && ProdEnabled(s) && (s.p == WaitStart || s.p == PutNum || s.p == SetStopped)
    ensures SameUse(s, ProdStep(s, move))
  {
    hide MeetIdle, MeetStart, Section, Counts;
  }

  // Only a stop and a block filled change what Returned and Filled look at.
  lemma SameParts(s: State, s': State)
    requires s'.c == s.c && s'.num == s.num && s'.nb == s.nb && s'.my == s.my
    requires (s.p == WaitStart <==> s'.p == WaitStart)
    ensures Returned(s') == Returned(s) && Filled(s') == Filled(s)
  {}

  lemma ProdParts(s: State, move: bool)
    requires |s.ring| > 0 && ProdEnabled(s) && s.p != WaitStart && s.p != PutNum && s.p != SetStopped && s.p != Fill
    ensures var s' := ProdStep(s, move);
            s'.c == s.c && s'.num == s.num && s'.nb == s.nb && s'.my == s.my && s'.p != WaitStart && s'.ring == s.ring
  {}

  lemma ProdSteadyRun(s: State, move: bool)
    requires |s.ring| > 0 && ProdEnabled(s) && s.p != WaitStart && s.p != PutNum && s.p != SetStopped && s.p != Fill
    ensures SameUse(s, ProdStep(s, move))
  {
    hide Returned, Filled, ProdStep;
    ProdParts(s, move);
    SameParts(s, ProdStep(s, move));
  }

  lemma ProdSteady(s: State, n: nat, move: bool)
    requires Inv(s, n) && ProdEnabled(s) && s.p != Fill
    ensures SameUse(s, ProdStep(s, move))
  {
    hide Meet, Section, SameUse, ProdStep;
    if s.p == WaitStart || s.p == PutNum || s.p == SetStopped {
      ProdSteadyStop(s, n, move);
    } else {
      ProdSteadyRun(s, move);
    }
  }

  lemma FillPlace(s: State, n: nat, move: bool)
    requires Inv(s, n) && s.p == Fill && InUse(s.c)
    ensures |s.ring| == n >= 1 && Returned(ProdStep(s, move)) == Returned(s) && Filled(s) == s.nb
    ensures Filled(ProdStep(s, move)) == s.nb + 1 <= Returned(s) + n
  {
    hide Starting, MeetIdle, MeetStart, Section;
  }

  lemma ProdData(s: State, n: nat, move: bool)
    requires Inv(s, n) && ProdEnabled(s) && (InUse(s.c) ==> Data(s, n))
    ensures |s.ring| == n >= 1 && (InUse(ProdStep(s, move).c) ==> Data(ProdStep(s, move), n))
  {
    hide Meet, Section, Returned, Filled, InUse;
    if s.p != Fill {
      ProdSteady(s, n, move);
    } else if InUse(s.c) {
      FillPlace(s, n, move);
      var s' := ProdStep(s, move);
      forall j: nat | Returned(s') <= j < Filled(s')
        ensures s'.ring[j % n] == j
      {
        if j < s.nb { ModDiffer(j, s.nb, n); }
      }
    }
  }

  lemma OtherData(s: State, n: nat)
    requires Inv(s, n) && OtherEnabled(s) && (InUse(s.c) ==> Data(s, n))
    ensures InUse(OtherStep(s).c) ==> Data(OtherStep(s), n)
  {
    hide Meet, Section, Returned, Filled;
    OtherKeeps(s, n);
  }

  // What holds in every reachable state.
  ghost predicate Good(s: State, n: nat) { Inv(s, n) && (InUse(s.c) ==> Data(s, n)) }

  lemma StepKeeps(s: State, n: nat, m: Move)
    requires Good(s, n) && Enabled(s, m)
    ensures Good(Step(s, m), n)
  {
    hide Inv, Data, ConsStep, ProdStep, OtherStep, ConsEnabled, ProdEnabled, OtherEnabled;
    match m
    case ByCons(wish) =>
      ConsKeeps(s, n, wish);
      ConsData(s, n, wish);
    case ByProd(move) =>
      ProdKeeps(s, n, move);
      ProdData(s, n, move);
    case ByOther =>
      OtherKeeps(s, n);
      OtherData(s, n);
  }

  lemma {:induction false} RunKeeps(n: nat, moves: seq<Move>, s: State)
    requires n >= 1 && IsRun(n, moves, s)
    ensures Good(s, n)
    decreases |moves|
  {
    hide Inv, Data, Step, Enabled;
    if moves == [] {
      Starts(n);
    } else {
      var m := moves[|moves| - 1];
      var s0 :| IsRun(n, moves[..|moves| - 1], s0) && Enabled(s0, m) && s == Step(s0, m);
      RunKeeps(n, moves[..|moves| - 1], s0);
      StepKeeps(s0, n, m);
    }
  }

  // ----- Results over every run ----------------------------------------------------------------

  // The consumer has a block: from taking it to giving it back.
  predicate HasBlock(c: Cons) {
    || c == EnterCs || c == Holds || c == Outside || c == Reenter || c == LeaveCs || c == NumNext || c == FreeNext
    || c == SetStop || c == SetStopOutside || c == StopLeaveCs || c == StopFree
  }

  // The block the consumer has is the next one in the order of production, complete; the producer
  // fills a place of the ring that holds no block still to be taken or in use; nobody moves the window
  // while the consumer is inside; the semaphores keep their limit.
  ghost predicate Safe(s: State, n: nat) {
    && n >= 1 && |s.ring| == n
    && (HasBlock(s.c) ==> Taken(s) >= 1 && s.ring[(Taken(s) - 1) % n] == Taken(s) - 1)
    && (InUse(s.c) && s.p == Fill ==>
          forall j: nat :: Returned(s) <= j < s.nb ==> s.ring[j % n] == j && j % n != s.nb % n)
    && (s.c == Holds ==> s.p != Moving && s.cs != Other)
    && (InUse(s.c) ==> s.free <= n && s.filled <= n)
  }

  lemma GoodIsSafe(s: State, n: nat)
    requires Good(s, n)
    ensures Safe(s, n)
  {
    if InUse(s.c) && s.p == Fill {
      forall j: nat | Returned(s) <= j < s.nb
        ensures s.ring[j % n] == j && j % n != s.nb % n
      {
        ModDiffer(j, s.nb, n);
      }
    }
  }

  // Main result: every reachable state is safe.
  lemma RingSafe(n: nat, moves: seq<Move>, s: State)
    requires n >= 1 && IsRun(n, moves, s)
    ensures Safe(s, n)
  {
    hide Inv, Data, IsRun, Safe;
    RunKeeps(n, moves, s);
    GoodIsSafe(s, n);
  }

  // As at the beginning: all places free, no block waiting, the producer waiting for a new start.
  predicate Restored(s: State, n: nat) {
    s.free == n && s.filled == 0 && s.p == WaitStart && s.nb == 0 && !s.canStart && (s.cs == Nobody || s.cs == Other)
  }

  lemma IdleRestored(s: State, n: nat)
    requires Inv(s, n) && s.c == Idle
    ensures Restored(s, n)
  {}

  // Main result: whenever nothing is started, and so after every stop, the ring is as at the beginning.
  lemma StopRestores(n: nat, moves: seq<Move>, s: State)
    requires n >= 1 && IsRun(n, moves, s) && s.c == Idle
    ensures Restored(s, n)
  {
    hide IsRun, Inv;
    RunKeeps(n, moves, s);
    IdleRestored(s, n);
  }

  lemma SomeoneCan(s: State, n: nat)
    requires Inv(s, n) && s.c != Closed && !ConsEnabled(s)
    ensures ProdEnabled(s) || s.cs == Other
  {}

  // Main result: while the consumer is in a call and cannot go on, the producer can, or somebody else
  // is inside the critical section.
  lemma NoDeadlock(n: nat, moves: seq<Move>, s: State)
    requires n >= 1 && IsRun(n, moves, s) && s.c != Closed && !ConsEnabled(s)
    ensures ProdEnabled(s) || s.cs == Other
  {
    hide IsRun, Inv, Data;
    RunKeeps(n, moves, s);
    SomeoneCan(s, n);
  }

  // ----- A stop takes a bounded number of steps ---------------------------------------------------

  predicate InStop(c: Cons) { Stopping(c) || Draining(c) }

  function ConsLeft(s: State, n: nat): int {
    if s.c == StopLeaveCs then 3 * n + 4
    else if s.c == StopFree then 3 * n + 3
    else if s.c == WaitStopped then 3 * n + 2
    else if s.c == TestDrained then 3 * (s.num - s.my) + 1
    else if s.c == DrainFilled then 3 * (s.num - s.my) + 3
    else if s.c == DrainFree then 3 * (s.num - s.my) + 2
    else 0
  }

  function ProdLeft(p: Prod): nat {
    match p
    case WaitFree => 7
    case Fill => 6
    case EnterMove => 6
    case ReleaseFilled => 5
    case Moving => 5
    case TestExit => 4
    case TestStop => 3
    case PutNum => 2
    case SetStopped => 1
    case _ => 0
  }

  function Left(s: State, n: nat): int { ConsLeft(s, n) + ProdLeft(s.p) }

  lemma LeftBound(n: nat, s: State)
    requires Inv(s, n) && InStop(s.c)
    ensures 0 <= Left(s, n) <= 3 * n + 11
  {}

  lemma ConsStopping(n: nat, s: State, wish: Wish)
    requires Inv(s, n) && ConsEnabled(s) && Stopping(s.c)
    ensures InStop(ConsStep(s, wish).c) && Left(ConsStep(s, wish), n) < Left(s, n)
  {}

  lemma ConsTesting(n: nat, s: State, wish: Wish)
    requires s.c == TestDrained || s.c == NeedStart
    ensures var s' := ConsStep(s, wish);
            s'.p == s.p && (s'.c == Idle || (InStop(s'.c) && ConsLeft(s', n) < ConsLeft(s, n)))
  {}

  lemma ConsTaking(n: nat, s: State, wish: Wish)
    requires (s.c == DrainFilled && s.filled > 0) || s.c == DrainFree
    ensures var s' := ConsStep(s, wish); s'.p == s.p && InStop(s'.c) && ConsLeft(s', n) < ConsLeft(s, n)
  {}

  lemma ConsDraining(n: nat, s: State, wish: Wish)
    requires ConsEnabled(s) && Draining(s.c)
    ensures ConsStep(s, wish).c == Idle || (InStop(ConsStep(s, wish).c) && Left(ConsStep(s, wish), n) < Left(s, n))
  {
    hide ConsStep, ConsLeft, ProdLeft, InStop;
    if s.c == TestDrained || s.c == NeedStart { ConsTesting(n, s, wish); } else { ConsTaking(n, s, wish); }
  }

  lemma ProdStopping(n: nat, s: State, move: bool)
    requires Inv(s, n) && ProdEnabled(s) && InStop(s.c)
    ensures InStop(ProdStep(s, move).c) && Left(ProdStep(s, move), n) < Left(s, n)
  {}

  // Once the stop flag is set, every step of either thread brings the return nearer.
  lemma StopEnds(n: nat, s: State, m: Move)
    requires Inv(s, n) && Enabled(s, m) && InStop(s.c)
    ensures var s' := Step(s, m);
            s'.c == Idle || (InStop(s'.c) && Left(s', n) <= Left(s, n) - if m.ByOther? then 0 else 1)
  {
    hide Inv, Left, ConsStep, ProdStep, ConsEnabled, ProdEnabled;
    match m
    case ByCons(wish) =>
      if Stopping(s.c) { ConsStopping(n, s, wish); } else { ConsDraining(n, s, wish); }
    case ByProd(move) =>
      ProdStopping(n, s, move);
    case ByOther =>
      OtherLeft(s, n);
  }

  lemma OtherLeft(s: State, n: nat)
    ensures Left(OtherStep(s), n) == Left(s, n)
  {
    hide ProdLeft;
  }

  // The moves lead from s on without the stop having returned.
  ghost predicate StillStopping(s: State, moves: seq<Move>)
    decreases |moves|
  {
    InStop(s.c) && (moves == [] || (Enabled(s, moves[0]) && StillStopping(Step(s, moves[0]), moves[1..])))
  }

  function OwnMoves(moves: seq<Move>): nat {
    if moves == [] then 0 else (if moves[0].ByOther? then 0 else 1) + OwnMoves(moves[1..])
  }

  lemma {:induction false} StillBounded(n: nat, s: State, moves: seq<Move>)
    requires Good(s, n) && StillStopping(s, moves)
    ensures OwnMoves(moves) <= Left(s, n)
    decreases |moves|
  {
    hide Inv, Data, Left, Step, Enabled;
    LeftBound(n, s);
    if moves != [] {
      StepKeeps(s, n, moves[0]);
      StopEnds(n, s, moves[0]);
      StillBounded(n, Step(s, moves[0]), moves[1..]);
    }
  }

  // Main result: in every run a stop returns before the two threads have made 3n + 12 steps.
  lemma StopReturns(n: nat, before: seq<Move>, s: State, moves: seq<Move>)
    requires n >= 1 && IsRun(n, before, s) && StillStopping(s, moves)
    ensures OwnMoves(moves) <= 3 * n + 11
  {
    hide Inv, Data, Left;
    RunKeeps(n, before, s);
    LeftBound(n, s);
    StillBounded(n, s, moves);
  }
}
