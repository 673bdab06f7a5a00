// The two rings of the multithreaded match finder in a chain: the match thread fills the blocks of
// one ring for the main thread, and for that takes blocks of hash heads from the other ring, which
// the hash thread fills. Moving the window takes both critical sections; stopping the first ring
// stops the second one inside.

module ChainedRings {
  import opened BlockRing

  // b: the ring of match blocks. h: the ring of hash blocks.
  datatype Chain = Chain(b: State, h: State)

  // A step of the main thread, of the match thread on its own ring or on that of the hash blocks, or
  // of the hash thread.
  datatype Act = Main(wish: Wish) | Match(wish: Wish) | MatchTakes(wish: Wish) | Hash(move: bool)

  // The match thread has nothing to do with the hash ring, takes a block from it, or stops it.
  predicate Resting(c: Cons) { c == Idle || c == Outside }

  predicate Fetching(c: Cons) {
    || Starting(c) || c == WaitStarted || c == WaitFilled || c == EnterCs || c == Holds || c == Reenter
    || c == LeaveCs || c == NumNext || c == FreeNext
  }

  predicate Halting(c: Cons) { c == SetStopOutside || c == StopFree || c == WaitStopped || Draining(c) }

  predicate Closing(c: Cons) { c == SetExit || c == ExitStart || c == Join || c == Closed }

  predicate Can(s: Chain, a: Act) {
    match a
    case Main(wish) => ConsEnabled(s.b) && wish != Pause && (s.b.c == Idle ==> wish == Go)
    case Match(_) =>
      && |s.b.ring| > 0 && ProdEnabled(s.b)
      && (s.b.p == Fill ==> Resting(s.h.c)) && (s.b.p == SetStopped ==> s.h.c == Idle)
    case MatchTakes(wish) =>
      && ConsEnabled(s.h)
      && if s.b.p == Fill then wish == Go || (wish == Pause && s.h.c == Holds)
         else s.b.p == SetStopped && s.h.c != Idle && wish == Stop
    case Hash(_) =>
      if s.h.p == EnterMove && s.b.cs != Other then s.b.cs == Nobody
      else s.h.p == Moving || (|s.h.ring| > 0 && ProdEnabled(s.h))
  }

  function Do(s: Chain, a: Act): Chain
    requires Can(s, a) && |s.h.ring| > 0
  {
    match a
    case Main(wish) => s.(b := ConsStep(s.b, wish))
    case Match(_) => s.(b := ProdStep(s.b, false))
    case MatchTakes(wish) => s.(h := ConsStep(s.h, wish))
    case Hash(move) =>
      if (s.h.p == EnterMove && s.b.cs == Nobody) || (s.h.p == Moving && s.b.cs == Other)
      then s.(b := OtherStep(s.b))
      else s.(h := ProdStep(s.h, move))
  }

  ghost predicate Reached(n: nat, m: nat, acts: seq<Act>, s: Chain)
    decreases |acts|
  {
    if acts == [] then s == Chain(Initial(n), Initial(m))
    else
      var a := acts[|acts| - 1];
      exists s0 :: Reached(n, m, acts[..|acts| - 1], s0) && |s0.h.ring| > 0 && Can(s0, a) && s == Do(s0, a)
  }

  // How the two rings hang together.
  predicate Hangs(s: Chain) {
    && s.b.p != EnterMove && s.b.p != Moving && s.b.p != Ended
    && !Closing(s.b.c)
    && (|| Resting(s.h.c) || (s.b.p == Fill && Fetching(s.h.c)) || (s.b.p == SetStopped && Halting(s.h.c)))
    && (s.b.p == WaitStart ==> s.h.c == Idle)
    && (s.b.cs == Other ==> s.h.p == EnterMove || s.h.p == Moving) && s.h.cs != Other
  }

  ghost predicate BothGood(s: Chain, n: nat, m: nat) { Good(s.b, n) && Good(s.h, m) && Hangs(s) }

  // ----- What every step keeps -----------------------------------------------------------------

  lemma GoodFacts(s: State, n: nat)
    requires Good(s, n)
    ensures |s.ring| == n >= 1
    ensures s.cs == Consumer <==> s.c == Holds || s.c == LeaveCs || s.c == SetStop || s.c == StopLeaveCs
    ensures s.cs == Producer <==> s.p == Moving
    ensures s.exit && s.c != SetExit && s.c != ExitStart && s.c != Join && s.c != Closed ==> s.p == WaitStart
    ensures s.p == Ended ==> s.c == Join || s.c == Closed
  {}

  // A step of a consumer, as far as others see it.
  predicate Seen(s: State, s': State) { s'.p == s.p && (s'.cs == Other ==> s.cs == Other) && !Closing(s'.c) }

  lemma StartsSeen(s: State, wish: Wish)
    requires ConsEnabled(s) && (s.c == Idle ==> wish == Go)
    requires
      || s.c == Idle || s.c == NumOne || s.c == ClearStop || s.c == ClearExit || s.c == ResetStarted
      || s.c == ResetStopped || s.c == SetStart || s.c == WaitStarted || s.c == WaitFilled
    ensures Seen(s, ConsStep(s, wish))
  {}

  lemma UsesSeen(s: State, wish: Wish)
    requires ConsEnabled(s)
    requires
      || s.c == EnterCs || s.c == Holds || s.c == Outside || s.c == Reenter || s.c == LeaveCs
      || s.c == NumNext || s.c == FreeNext
    ensures Seen(s, ConsStep(s, wish))
  {}

  lemma StopsSeen(s: State, wish: Wish)
    requires ConsEnabled(s)
    requires
      || s.c == SetStop || s.c == StopLeaveCs || s.c == SetStopOutside || s.c == StopFree || s.c == WaitStopped
      || s.c == TestDrained || s.c == DrainFilled || s.c == DrainFree || s.c == NeedStart
    ensures Seen(s, ConsStep(s, wish))
  {}

  lemma ConsSeen(s: State, wish: Wish)
    requires ConsEnabled(s) && !Closing(s.c) && (s.c == Idle ==> wish == Go)
    ensures Seen(s, ConsStep(s, wish))
  {
    hide ConsStep, Seen;
    match s.c
    case Idle => StartsSeen(s, wish);
    case NumOne => StartsSeen(s, wish);
    case ClearStop => StartsSeen(s, wish);
    case ClearExit => StartsSeen(s, wish);
    case ResetStarted => StartsSeen(s, wish);
    case ResetStopped => StartsSeen(s, wish);
    case SetStart => StartsSeen(s, wish);
    case WaitStarted => StartsSeen(s, wish);
    case WaitFilled => StartsSeen(s, wish);
    case EnterCs => UsesSeen(s, wish);
    case Holds => UsesSeen(s, wish);
    case Outside => UsesSeen(s, wish);
    case Reenter => UsesSeen(s, wish);
    case LeaveCs => UsesSeen(s, wish);
    case NumNext => UsesSeen(s, wish);
    case FreeNext => UsesSeen(s, wish);
    case SetStop => StopsSeen(s, wish);
    case StopLeaveCs => StopsSeen(s, wish);
    case SetStopOutside => StopsSeen(s, wish);
    case StopFree => StopsSeen(s, wish);
    case WaitStopped => StopsSeen(s, wish);
    case TestDrained => StopsSeen(s, wish);
    case DrainFilled => StopsSeen(s, wish);
    case DrainFree => StopsSeen(s, wish);
    case NeedStart => StopsSeen(s, wish);
    case SetExit =>
    case ExitStart =>
    case Join =>
    case Closed =>
  }

  lemma NotClosing(c: Cons)
    ensures Resting(c) || Fetching(c) || Halting(c) ==> !Closing(c)
  {}

  lemma FetchStarts(s: State, wish: Wish)
    requires ConsEnabled(s)
    requires wish == Go && (s.c == Idle || Starting(s.c) || s.c == WaitStarted || s.c == WaitFilled)
    ensures Resting(ConsStep(s, wish).c) || Fetching(ConsStep(s, wish).c)
  {}

  lemma FetchUses(s: State, wish: Wish)
    requires ConsEnabled(s) && (wish == Go || (wish == Pause && s.c == Holds))
    requires
      || s.c == EnterCs || s.c == Holds || s.c == Outside || s.c == Reenter || s.c == LeaveCs
      || s.c == NumNext || s.c == FreeNext
    ensures Resting(ConsStep(s, wish).c) || Fetching(ConsStep(s, wish).c)
  {}

  lemma FetchGoes(s: State, wish: Wish)
    requires ConsEnabled(s) && (Resting(s.c) || Fetching(s.c)) && (wish == Go || (wish == Pause && s.c == Holds))
    ensures Resting(ConsStep(s, wish).c) || Fetching(ConsStep(s, wish).c)
  {
    hide ConsStep;
    if s.c == Idle || Starting(s.c) || s.c == WaitStarted || s.c == WaitFilled {
      FetchStarts(s, wish);
    } else {
      FetchUses(s, wish);
    }
  }

  lemma HaltGoes(s: State)
    requires ConsEnabled(s) && (s.c == Outside || Halting(s.c))
    ensures ConsStep(s, Stop).c == Idle || Halting(ConsStep(s, Stop).c)
  {}

  lemma MainHangs(s: Chain, n: nat, m: nat, wish: Wish)
    requires BothGood(s, n, m) && Can(s, Main(wish))
    ensures Hangs(s.(b := ConsStep(s.b, wish)))
  {
    hide Good, Fetching, Halting, Resting, ConsStep, ConsEnabled;
    ConsSeen(s.b, wish);
  }

  lemma MatchHangs(s: Chain, n: nat, m: nat, wish: Wish)
    requires BothGood(s, n, m) && Can(s, Match(wish))
    ensures Hangs(s.(b := ProdStep(s.b, false)))
  {
    hide Good, Fetching, Halting;
    GoodFacts(s.b, n);
  }

  lemma TakesHangs(s: Chain, n: nat, m: nat, wish: Wish)
    requires BothGood(s, n, m) && Can(s, MatchTakes(wish))
    ensures Hangs(s.(h := ConsStep(s.h, wish)))
  {
    hide Good, ConsStep, ConsEnabled, Fetching, Halting;
    NotClosing(s.h.c);
    ConsSeen(s.h, wish);
    if s.b.p == Fill {
      FetchGoes(s.h, wish);
    } else {
      HaltGoes(s.h);
    }
  }

  // A step of the hash thread on its own ring.
  lemma ProdSeen(s: State, move: bool)
    requires ProdEnabled(s) && |s.ring| > 0
    ensures var s' := ProdStep(s, move);
            && s'.c == s.c && (s'.cs == Other ==> s.cs == Other)
            && (s.p == EnterMove ==> s'.p == Moving) && (s.p == Moving ==> s'.p == TestExit)
  {}

  lemma HashHangs(s: Chain, n: nat, m: nat, move: bool)
    requires BothGood(s, n, m) && Can(s, Hash(move)) && |s.h.ring| > 0
    ensures Hangs(Do(s, Hash(move)))
  {
    hide Good, Fetching, Halting, Resting, ProdStep;
    if !((s.h.p == EnterMove && s.b.cs == Nobody) || (s.h.p == Moving && s.b.cs == Other)) {
      ProdSeen(s.h, move);
    }
  }

  lemma StepKeepsBoth(s: Chain, n: nat, m: nat, a: Act)
    requires BothGood(s, n, m) && Can(s, a) && |s.h.ring| > 0
    ensures BothGood(Do(s, a), n, m)
  {
    hide Good, Hangs, ConsStep, ProdStep, ConsEnabled, OtherStep;
    GoodFacts(s.b, n);
    GoodFacts(s.h, m);
    match a
    case Main(wish) =>
      StepKeeps(s.b, n, ByCons(wish));
      MainHangs(s, n, m, wish);
    case Match(wish) =>
      StepKeeps(s.b, n, ByProd(false));
      MatchHangs(s, n, m, wish);
    case MatchTakes(wish) =>
      StepKeeps(s.h, m, ByCons(wish));
      TakesHangs(s, n, m, wish);
    case Hash(move) =>
      HashHangs(s, n, m, move);
      if (s.h.p == EnterMove && s.b.cs == Nobody) || (s.h.p == Moving && s.b.cs == Other) {
        StepKeeps(s.b, n, ByOther);
      } else {
        StepKeeps(s.h, m, ByProd(move));
      }
  }

  lemma {:induction false} RunKeepsBoth(n: nat, m: nat, acts: seq<Act>, s: Chain)
    requires n >= 1 && m >= 1 && Reached(n, m, acts, s)
    ensures BothGood(s, n, m)
    decreases |acts|
  {
    hide Good, Can, Do;
    if acts == [] {
      Starts(n);
      Starts(m);
      InitialGood(n);
      InitialGood(m);
    } else {
      var a := acts[|acts| - 1];
      var s0 :| Reached(n, m, acts[..|acts| - 1], s0) && |s0.h.ring| > 0 && Can(s0, a) && s == Do(s0, a);
      RunKeepsBoth(n, m, acts[..|acts| - 1], s0);
      StepKeepsBoth(s0, n, m, a);
    }
  }

  lemma InitialGood(n: nat)
    requires n >= 1
    ensures Good(Initial(n), n)
  {
    Starts(n);
  }

  // ----- Results over every run ----------------------------------------------------------------

  // Main result: both rings are safe, and the window is not moved while either thread uses a block.
  lemma ChainSafe(n: nat, m: nat, acts: seq<Act>, s: Chain)
    requires n >= 1 && m >= 1 && Reached(n, m, acts, s)
    ensures Safe(s.b, n) && Safe(s.h, m)
    ensures s.h.p == Moving && s.b.cs == Other ==> s.b.c != Holds && s.h.c != Holds
  {
    hide Reached, Good, Safe;
    RunKeepsBoth(n, m, acts, s);
    GoodIsSafe(s.b, n);
    GoodIsSafe(s.h, m);
    GoodFacts(s.b, n);
    GoodFacts(s.h, m);
  }

  // Main result: when the main thread has stopped its ring, the other one is stopped as well, and both
  // are as at the beginning.
  lemma ChainStops(n: nat, m: nat, acts: seq<Act>, s: Chain)
    requires n >= 1 && m >= 1 && Reached(n, m, acts, s) && s.b.c == Idle
    ensures s.h.c == Idle && Restored(s.b, n) && Restored(s.h, m)
  {
    hide Reached, Inv, Data, Restored;
    RunKeepsBoth(n, m, acts, s);
    IdleRestored(s.b, n);
    assert s.b.p == WaitStart by { IdleWaits(s.b, n); }
    IdleRestored(s.h, m);
  }

  lemma IdleWaits(s: State, n: nat)
    requires Inv(s, n) && s.c == Idle
    ensures s.p == WaitStart
  {}

  predicate MatchCan(s: Chain) {
    Can(s, Match(Go)) || Can(s, MatchTakes(Go)) || Can(s, MatchTakes(Stop))
  }

  lemma ThirdCan(s: Chain, n: nat, m: nat)
    requires BothGood(s, n, m) && !ConsEnabled(s.b)
    ensures MatchCan(s) || Can(s, Hash(false))
  {
    hide Inv, Data, Safe;
    GoodFacts(s.b, n);
    GoodFacts(s.h, m);
    SomeoneCan(s.b, n);
    if !ConsEnabled(s.h) && s.h.c != Closed { SomeoneCan(s.h, m); }
  }

  // Main result: while the main thread is in a call and cannot go on, one of the other two can.
  lemma ChainNoDeadlock(n: nat, m: nat, acts: seq<Act>, s: Chain)
    requires n >= 1 && m >= 1 && Reached(n, m, acts, s) && !ConsEnabled(s.b)
    ensures MatchCan(s) || Can(s, Hash(false))
  {
    hide Reached, Good, MatchCan, Can;
    RunKeepsBoth(n, m, acts, s);
    ThirdCan(s, n, m);
  }
}
