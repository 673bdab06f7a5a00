// The ring of coder threads: a read token and a write token travel from thread to thread, and
// errors and the end of input shut the ring down. Every wait, test, assignment to another
// thread, event and callback is one atomic step; any thread may take the next one.

module CoderRing {
  // Where a thread is: the step it takes next.
  datatype Pc =
    | Absent        // never started
    | WaitRead | CheckStop | RelayStop | RelaySet
    | Read | MarkStop | PassRead | Code | WaitWrite | CheckWrite | Write | PassWrite
    | SetErr | ErrStopRead | ErrStopWrite | ErrSetRead | ErrSetWrite
    | Done

  datatype Err = NoErr | ReadErr | CodeErr | WriteErr | FailErr

  // stop: the block in the buffers is the last one. buf: its number.
  datatype Thread = Thread(pc: Pc, stop: bool, err: Err, buf: nat,
                           stopReading: bool, stopWriting: bool, canRead: bool, canWrite: bool)

  // pos: blocks read so far. out: the numbers of the blocks written. res: the first error.
  datatype State = State(th: seq<Thread>, pos: nat, out: seq<nat>, res: Err)

  function Next(i: nat, n: nat): (j: nat)
    requires i < n
    ensures j < n
  {
    if i == n - 1 then 0 else i + 1
  }

  predicate Enabled(s: State, i: nat) {
    && i < |s.th|
    && match s.th[i].pc
       case Absent => false
       case Done => false
       case WaitRead => s.th[i].canRead
       case WaitWrite => s.th[i].canWrite
       case _ => true
  }

  // What the step does to the thread itself; ok is the outcome of the stream or coder call it
  // makes, if any. The input has total blocks, of which the last one, and only that, is not full.
  function Act(t: Thread, pos: nat, total: nat, ok: bool): Thread {
    match t.pc
    case WaitRead => t.(pc := CheckStop, canRead := false)
    case CheckStop => t.(pc := if t.stopReading then RelayStop else Read)
    case RelayStop => t.(pc := RelaySet)
    case RelaySet => t.(pc := Done)
    case Read =>
      if ok then t.(pc := MarkStop, buf := pos, stop := pos + 1 >= total) else t.(pc := SetErr, err := ReadErr)
    case MarkStop => t.(pc := PassRead)
    case PassRead => t.(pc := Code)
    case Code => if ok then t.(pc := WaitWrite) else t.(pc := SetErr, err := CodeErr)
    case WaitWrite => t.(pc := CheckWrite, canWrite := false)
    case CheckWrite => if t.stopWriting then t.(pc := SetErr, err := FailErr) else t.(pc := Write)
    case Write => if ok then t.(pc := PassWrite) else t.(pc := SetErr, err := WriteErr)
    case PassWrite => t.(pc := if t.stop then Done else WaitRead, stop := false)
    case SetErr => t.(pc := ErrStopRead)
    case ErrStopRead => t.(pc := ErrStopWrite)
    case ErrStopWrite => t.(pc := ErrSetRead)
    case ErrSetRead => t.(pc := ErrSetWrite)
    case ErrSetWrite => t.(pc := Done)
    case _ => t
  }

  // What it does to the thread after it.
  function Signal(t: Thread, u: Thread): Thread {
    match t.pc
    case RelayStop => u.(stopReading := true)
    case ErrStopRead => u.(stopReading := true)
    case MarkStop => u.(stopReading := t.stop)
    case RelaySet => u.(canRead := true)
    case PassRead => u.(canRead := true)
    case ErrSetRead => u.(canRead := true)
    case PassWrite => u.(canWrite := true)
    case ErrSetWrite => u.(canWrite := true)
    case ErrStopWrite => u.(stopWriting := true)
    case _ => u
  }

  // The error that is kept: the first one.
  function NewRes(t: Thread, res: Err): Err { if t.pc == SetErr && res == NoErr then t.err else res }

  function NewPos(t: Thread, pos: nat, ok: bool): nat { if t.pc == Read && ok then pos + 1 else pos }

  function NewOut(t: Thread, out: seq<nat>, ok: bool): seq<nat> { if t.pc == Write && ok then out + [t.buf] else out }

  // Thread i takes its step.
  function Step(s: State, total: nat, i: nat, ok: bool): (s': State)
    requires Enabled(s, i)
    ensures |s'.th| == |s.th|
  {
    var t, n := s.th[i], Next(i, |s.th|);
    var th := s.th[i := Act(t, s.pos, total, ok)];
    State(th[n := Signal(t, th[n])], NewPos(t, s.pos, ok), NewOut(t, s.out, ok), NewRes(t, s.res))
  }

  // The first started threads run; if not all of them could be started, the first one is told to stop.
  function Initial(n: nat, started: nat): State
    requires started <= n
  {
    State(seq(n, i => Thread(if i < started then WaitRead else Absent, false, NoErr, 0,
                             i == 0 && started < n, false, i == 0, i == 0)), 0, [], NoErr)
  }

  datatype Move = Move(thread: nat, ok: bool)

  ghost predicate IsRun(n: nat, started: nat, total: nat, moves: seq<Move>, s: State)
    requires started <= n
    decreases |moves|
  {
    if moves == [] then s == Initial(n, started)
    else
      var m := moves[|moves| - 1];
      exists s0 :: IsRun(n, started, total, moves[..|moves| - 1], s0) && Enabled(s0, m.thread) &&
                   s == Step(s0, total, m.thread, m.ok)
  }

  // ----- Where the tokens are ----------------------------------------------------------------

  // Thread o is to read block base + o (one round more if wrap), thread w to write block base + w.
  datatype Turn = Turn(base: nat, o: nat, w: nat, wrap: bool)

  predicate ValidTurn(a: Turn, n: nat) {
    a.o < n && a.w < n && (if a.wrap then a.o <= a.w else a.w <= a.o)
  }

  function ToRead(a: Turn, n: nat): nat { a.base + a.o + if a.wrap then n else 0 }

  function ToWrite(a: Turn): nat { a.base + a.w }

  // The block thread q has or is to have, and whether it has passed the read token for it.
  function Block(a: Turn, n: nat, q: nat): nat { a.base + q + if q < a.w then n else 0 }

  predicate Passed(a: Turn, q: nat) { if a.wrap then q >= a.w || q < a.o else a.w <= q < a.o }

  function ReadPassed(a: Turn, n: nat): Turn {
    if a.o == n - 1 then a.(o := 0, wrap := true) else a.(o := a.o + 1)
  }

  function WritePassed(a: Turn, n: nat): Turn {
    if a.w == n - 1 then a.(w := 0, wrap := false, base := a.base + n) else a.(w := a.w + 1)
  }

  function NewTurn(t: Thread, a: Turn, n: nat): Turn {
    if t.pc == PassRead then ReadPassed(a, n) else if t.pc == PassWrite then WritePassed(a, n) else a
  }

  predicate Holding(pc: Pc) { pc == Read || pc == MarkStop || pc == PassRead }
  predicate Front(pc: Pc) { pc == WaitRead || pc == CheckStop || pc == RelayStop || pc == RelaySet }
  predicate Working(pc: Pc) { pc == Code || pc == WaitWrite || pc == CheckWrite || pc == Write || pc == PassWrite }
  predicate Failing(pc: Pc) {
    pc == SetErr || pc == ErrStopRead || pc == ErrStopWrite || pc == ErrSetRead || pc == ErrSetWrite
  }
  predicate Leaving(pc: Pc) { pc == RelayStop || pc == RelaySet || pc == Done || pc == Absent || Failing(pc) }

  // There is nothing more to read, or the ring was never complete.
  predicate Ended(a: Turn, n: nat, total: nat, started: nat) { ToRead(a, n) == total || started < n }

  // A thread by itself: tokens that are not shutdown signals are only where the turn says.
  predicate Local(t: Thread, q: nat, a: Turn, n: nat, total: nat, res: Err, started: nat) {
    && (t.pc == Absent <==> q >= started)
    && (Holding(t.pc) || (t.pc == CheckStop && !t.stopReading) ==> q == a.o)
    && (t.pc == WaitRead || t.pc == CheckStop || t.pc == RelayStop || t.pc == RelaySet || Holding(t.pc) ==>
          !Passed(a, q) && t.err == NoErr)
    && (Working(t.pc) ==> Passed(a, q) && t.err == NoErr)
    && (Working(t.pc) || t.pc == MarkStop || t.pc == PassRead ==>
          t.buf == Block(a, n, q) && t.stop == (t.buf + 1 >= total))
    && (t.stop ==>
          Working(t.pc) || t.pc == MarkStop || t.pc == PassRead || Failing(t.pc) || (t.pc == Done && t.err != NoErr))
    && (t.pc == Write || t.pc == PassWrite || (t.pc == CheckWrite && !t.stopWriting) ==> q == a.w)
    && (t.canRead && !t.stopReading ==> q == a.o && t.pc != CheckStop && !Holding(t.pc))
    && (t.canWrite && !t.stopWriting ==> q == a.w && t.pc != CheckWrite && t.pc != Write && t.pc != PassWrite)
    && (Failing(t.pc) ==> t.err != NoErr)
    && (t.pc == Done && t.err == NoErr ==> !Passed(a, q))
    && (t.err != NoErr ==> Failing(t.pc) || t.pc == Done)
    && (t.err != NoErr && t.pc != SetErr ==> res != NoErr)
    && (t.err == FailErr ==> res != NoErr)
    && (t.stopWriting ==> res != NoErr)
    && (t.pc == RelayStop || t.pc == RelaySet ==> res != NoErr || Ended(a, n, total, started))
  }

  // The thread has sent its last signal to read on.
  predicate Final(t: Thread) {
    t.pc == Done || t.pc == ErrSetWrite || (t.stop && (Working(t.pc) || Failing(t.pc)))
  }

  // A thread and the one after it: what the shutdown flags mean.
  predicate Flags(t: Thread, u: Thread, ended: bool, res: Err) {
    && (u.stopReading ==>
          || t.pc == RelaySet || t.pc == ErrStopWrite || t.pc == ErrSetRead || t.pc == ErrSetWrite
          || t.pc == Done || t.pc == Absent
          || (t.stop && (t.pc == PassRead || Working(t.pc) || t.pc == SetErr || t.pc == ErrStopRead)))
    && (u.stopReading ==> res != NoErr || ended || (t.pc == PassRead && t.stop))
    && (u.stopWriting ==> t.err != NoErr && (t.pc == ErrSetRead || t.pc == ErrSetWrite || t.pc == Done))
  }

  // What has been signalled is still there, or has been taken note of: no signal gets lost.
  predicate Signalled(t: Thread, u: Thread) {
    && (t.pc == PassRead && t.stop ==> u.stopReading && !u.canRead && u.pc != CheckStop)
    && (t.pc == RelaySet || t.pc == ErrStopWrite || t.pc == ErrSetRead ==> u.stopReading)
    && (t.pc == ErrSetRead || t.pc == ErrSetWrite ==> u.stopWriting)
    && (Final(t) ==> u.stopReading && (u.canRead || u.pc == CheckStop || Leaving(u.pc)))
    && (t.pc == Done && t.err != NoErr ==> u.stopWriting && (u.canWrite || u.pc == CheckWrite || Leaving(u.pc)))
  }

  predicate Link(t: Thread, u: Thread, ended: bool, res: Err) { Flags(t, u, ended, res) && Signalled(t, u) }

  predicate BeforeWrite(pc: Pc) {
    pc == WaitRead || pc == CheckStop || Holding(pc) || pc == Code || pc == WaitWrite
  }

  // The thread whose turn it is to read has the token, or is past taking it; so for writing.
  predicate HasReadToken(t: Thread) { t.canRead || !(t.pc == WaitRead || Working(t.pc)) }

  predicate HasWriteToken(t: Thread) { t.canWrite || !BeforeWrite(t.pc) }

  // 1 if the thread has read its block and not passed the token on yet; so for writing.
  function HasRead(t: Thread): nat { if t.pc == MarkStop || t.pc == PassRead then 1 else 0 }

  function HasWritten(t: Thread): nat { if t.pc == PassWrite then 1 else 0 }

  predicate Global(s: State, a: Turn, total: nat, started: nat) {
    && var n := |s.th|;
    && n >= 1 && total >= 1 && started <= n && ValidTurn(a, n) && ToRead(a, n) <= total
    && HasReadToken(s.th[a.o]) && HasWriteToken(s.th[a.w])
    && |s.out| == ToWrite(a) + HasWritten(s.th[a.w])
    && (forall k :: 0 <= k < |s.out| ==> s.out[k] == k)
    && s.pos == ToRead(a, n) + HasRead(s.th[a.o])
    && (ToRead(a, n) == total ==> s.th[a.o].stopReading && !Holding(s.th[a.o].pc))
    && (started < n ==> a == Turn(0, 0, 0, false) && s.th[0].stopReading && !Holding(s.th[0].pc))
    && s.res != FailErr
  }

  predicate Inv(s: State, a: Turn, total: nat, started: nat) {
    && Global(s, a, total, started)
    && (forall q: nat :: q < |s.th| ==> Sound(s, a, total, started, q))
  }

  // A thread by itself, and together with the next one.
  predicate Sound(s: State, a: Turn, total: nat, started: nat, q: nat)
    requires q < |s.th|
  {
    && Local(s.th[q], q, a, |s.th|, total, s.res, started)
    && Link(s.th[q], s.th[Next(q, |s.th|)], Ended(a, |s.th|, total, started), s.res)
  }

  lemma Starts(n: nat, started: nat, total: nat)
    requires 1 <= n && started <= n && total >= 1
    ensures Inv(Initial(n, started), Turn(0, 0, 0, false), total, started)
  {
    hide Local, Link;
    var s, a := Initial(n, started), Turn(0, 0, 0, false);
    forall q: nat | q < n
      ensures Sound(s, a, total, started, q)
    {
      StartThread(n, started, total, q);
    }
  }

  lemma StartThread(n: nat, started: nat, total: nat, q: nat)
    requires q < n && started <= n && total >= 1
    ensures var s, a := Initial(n, started), Turn(0, 0, 0, false);
      && Local(s.th[q], q, a, n, total, NoErr, started)
      && Link(s.th[q], s.th[Next(q, n)], Ended(a, n, total, started), NoErr)
  {}

  // ----- What a step keeps, thread by thread ---------------------------------------------------

  // The acting thread t, its place i, and what it needs to know of the rest.
  predicate Acts(t: Thread, i: nat, a: Turn, n: nat, total: nat, res: Err, started: nat, pos: nat) {
    && i < n && ValidTurn(a, n) && ToRead(a, n) <= total && total >= 1
    && Local(t, i, a, n, total, res, started)
    && t.pc != Absent && t.pc != Done && (t.pc == WaitRead ==> t.canRead) && (t.pc == WaitWrite ==> t.canWrite)
    && (Holding(t.pc) ==> ToRead(a, n) < total && (t.pc == Read ==> pos == ToRead(a, n)))
    && (started < n ==> !Holding(t.pc) && !Working(t.pc) && !Passed(a, i))
  }

  lemma TurnKept(t: Thread, i: nat, a: Turn, n: nat, total: nat, res: Err, started: nat, pos: nat, q: nat)
    requires Acts(t, i, a, n, total, res, started, pos) && q < n
    ensures ValidTurn(NewTurn(t, a, n), n) && ToRead(NewTurn(t, a, n), n) <= total
    ensures q != i ==> Block(NewTurn(t, a, n), n, q) == Block(a, n, q) && Passed(NewTurn(t, a, n), q) == Passed(a, q)
    ensures t.pc == PassRead ==> Passed(NewTurn(t, a, n), i) && Block(NewTurn(t, a, n), n, i) == Block(a, n, i)
    ensures t.pc == PassRead ==> i == a.o && NewTurn(t, a, n).o == Next(i, n) && NewTurn(t, a, n).w == a.w
    ensures t.pc == PassWrite ==> !Passed(NewTurn(t, a, n), i)
    ensures t.pc == PassWrite ==> i == a.w && NewTurn(t, a, n).w == Next(i, n) && NewTurn(t, a, n).o == a.o
    ensures Holding(t.pc) ==> Block(a, n, i) == ToRead(a, n)
    ensures t.pc == Write || t.pc == PassWrite ==> Block(a, n, i) == ToWrite(a)
    ensures Ended(a, n, total, started) ==> Ended(NewTurn(t, a, n), n, total, started)
    ensures t.pc != PassRead ==> ToRead(NewTurn(t, a, n), n) == ToRead(a, n)
    ensures t.pc == PassRead ==> ToRead(NewTurn(t, a, n), n) == ToRead(a, n) + 1
  {}

  lemma ActLocalFront(t: Thread, i: nat, a: Turn, n: nat, total: nat, res: Err, started: nat, pos: nat, ok: bool,
                      p: Thread)
    requires Acts(t, i, a, n, total, res, started, pos) && Link(p, t, Ended(a, n, total, started), res)
    requires Front(t.pc)
    ensures Local(Act(t, pos, total, ok), i, NewTurn(t, a, n), n, total, NewRes(t, res), started) || n == 1
  {
    hide Passed, Block, ToRead, ReadPassed, WritePassed;
    TurnKept(t, i, a, n, total, res, started, pos, i);
  }

  lemma ActLocalHolding(t: Thread, i: nat, a: Turn, n: nat, total: nat, res: Err, started: nat, pos: nat, ok: bool,
                        p: Thread)
    requires Acts(t, i, a, n, total, res, started, pos) && Link(p, t, Ended(a, n, total, started), res)
    requires Holding(t.pc)
    ensures Local(Act(t, pos, total, ok), i, NewTurn(t, a, n), n, total, NewRes(t, res), started) || n == 1
  {
    hide Passed, Block, ToRead, ReadPassed, WritePassed;
    TurnKept(t, i, a, n, total, res, started, pos, i);
  }

  lemma ActLocalCoding(t: Thread, i: nat, a: Turn, n: nat, total: nat, res: Err, started: nat, pos: nat, ok: bool,
                       p: Thread)
    requires Acts(t, i, a, n, total, res, started, pos) && Link(p, t, Ended(a, n, total, started), res)
    requires t.pc == Code || t.pc == WaitWrite || t.pc == CheckWrite
    ensures Local(Act(t, pos, total, ok), i, NewTurn(t, a, n), n, total, NewRes(t, res), started) || n == 1
  {
    hide Passed, Block, ToRead, ReadPassed, WritePassed;
    TurnKept(t, i, a, n, total, res, started, pos, i);
  }

  lemma ActLocalWriting(t: Thread, i: nat, a: Turn, n: nat, total: nat, res: Err, started: nat, pos: nat, ok: bool,
                        p: Thread)
    requires Acts(t, i, a, n, total, res, started, pos) && Link(p, t, Ended(a, n, total, started), res)
    requires t.pc == Write || t.pc == PassWrite
    ensures Local(Act(t, pos, total, ok), i, NewTurn(t, a, n), n, total, NewRes(t, res), started) || n == 1
  {
    hide Passed, Block, ToRead, ReadPassed, WritePassed;
    TurnKept(t, i, a, n, total, res, started, pos, i);
  }

  lemma ActLocalFailing(t: Thread, i: nat, a: Turn, n: nat, total: nat, res: Err, started: nat, pos: nat, ok: bool,
                        p: Thread)
    requires Acts(t, i, a, n, total, res, started, pos) && Link(p, t, Ended(a, n, total, started), res)
    requires Failing(t.pc)
    ensures Local(Act(t, pos, total, ok), i, NewTurn(t, a, n), n, total, NewRes(t, res), started) || n == 1
  {
    hide Passed, Block, ToRead, ReadPassed, WritePassed;
    TurnKept(t, i, a, n, total, res, started, pos, i);
  }

  lemma ActLocal(t: Thread, i: nat, a: Turn, n: nat, total: nat, res: Err, started: nat, pos: nat, ok: bool, p: Thread)
    requires Acts(t, i, a, n, total, res, started, pos) && Link(p, t, Ended(a, n, total, started), res)
    ensures Local(Act(t, pos, total, ok), i, NewTurn(t, a, n), n, total, NewRes(t, res), started) || n == 1
  {
    hide Act, Signal, Local, Link, NewTurn;
    if Front(t.pc) {
      ActLocalFront(t, i, a, n, total, res, started, pos, ok, p);
    } else if Holding(t.pc) {
      ActLocalHolding(t, i, a, n, total, res, started, pos, ok, p);
    } else if t.pc == Write || t.pc == PassWrite {
      ActLocalWriting(t, i, a, n, total, res, started, pos, ok, p);
    } else if Working(t.pc) {
      ActLocalCoding(t, i, a, n, total, res, started, pos, ok, p);
    } else {
      ActLocalFailing(t, i, a, n, total, res, started, pos, ok, p);
    }
  }

  lemma OtherLocal(t: Thread, i: nat, a: Turn, n: nat, total: nat, res: Err, started: nat, pos: nat, v: Thread, q: nat)
    requires Acts(t, i, a, n, total, res, started, pos) && q < n && q != i
    requires Local(v, q, a, n, total, res, started)
    ensures Local(v, q, NewTurn(t, a, n), n, total, NewRes(t, res), started)
  {
    hide Passed, Block, ToRead, ReadPassed, WritePassed;
    TurnKept(t, i, a, n, total, res, started, pos, q);
  }

  lemma SignalLocalFront(t: Thread, i: nat, a: Turn, n: nat, total: nat, res: Err, started: nat, pos: nat, u: Thread)
    requires Acts(t, i, a, n, total, res, started, pos) && n > 1
    requires Local(u, Next(i, n), a, n, total, res, started) && Link(t, u, Ended(a, n, total, started), res)
    requires Front(t.pc)
    ensures Local(Signal(t, u), Next(i, n), NewTurn(t, a, n), n, total, NewRes(t, res), started)
  {
    hide Passed, Block, ToRead, ReadPassed, WritePassed;
    TurnKept(t, i, a, n, total, res, started, pos, Next(i, n));
  }

  lemma SignalLocalHolding(t: Thread, i: nat, a: Turn, n: nat, total: nat, res: Err, started: nat, pos: nat, u: Thread)
    requires Acts(t, i, a, n, total, res, started, pos) && n > 1
    requires Local(u, Next(i, n), a, n, total, res, started) && Link(t, u, Ended(a, n, total, started), res)
    requires Holding(t.pc)
    ensures Local(Signal(t, u), Next(i, n), NewTurn(t, a, n), n, total, NewRes(t, res), started)
  {
    hide Passed, Block, ToRead, ReadPassed, WritePassed;
    TurnKept(t, i, a, n, total, res, started, pos, Next(i, n));
  }

  lemma SignalLocalCoding(t: Thread, i: nat, a: Turn, n: nat, total: nat, res: Err, started: nat, pos: nat, u: Thread)
    requires Acts(t, i, a, n, total, res, started, pos) && n > 1
    requires Local(u, Next(i, n), a, n, total, res, started) && Link(t, u, Ended(a, n, total, started), res)
    requires t.pc == Code || t.pc == WaitWrite || t.pc == CheckWrite
    ensures Local(Signal(t, u), Next(i, n), NewTurn(t, a, n), n, total, NewRes(t, res), started)
  {
    hide Passed, Block, ToRead, ReadPassed, WritePassed;
    TurnKept(t, i, a, n, total, res, started, pos, Next(i, n));
  }

  lemma SignalLocalWriting(t: Thread, i: nat, a: Turn, n: nat, total: nat, res: Err, started: nat, pos: nat, u: Thread)
    requires Acts(t, i, a, n, total, res, started, pos) && n > 1
    requires Local(u, Next(i, n), a, n, total, res, started) && Link(t, u, Ended(a, n, total, started), res)
    requires t.pc == Write || t.pc == PassWrite
    ensures Local(Signal(t, u), Next(i, n), NewTurn(t, a, n), n, total, NewRes(t, res), started)
  {
    hide Passed, Block, ToRead, ReadPassed, WritePassed;
    TurnKept(t, i, a, n, total, res, started, pos, Next(i, n));
  }

  lemma SignalLocalFailing(t: Thread, i: nat, a: Turn, n: nat, total: nat, res: Err, started: nat, pos: nat, u: Thread)
    requires Acts(t, i, a, n, total, res, started, pos) && n > 1
    requires Local(u, Next(i, n), a, n, total, res, started) && Link(t, u, Ended(a, n, total, started), res)
    requires Failing(t.pc)
    ensures Local(Signal(t, u), Next(i, n), NewTurn(t, a, n), n, total, NewRes(t, res), started)
  {
    hide Passed, Block, ToRead, ReadPassed, WritePassed;
    TurnKept(t, i, a, n, total, res, started, pos, Next(i, n));
  }

  lemma SignalLocal(t: Thread, i: nat, a: Turn, n: nat, total: nat, res: Err, started: nat, pos: nat, u: Thread)
    requires Acts(t, i, a, n, total, res, started, pos) && n > 1
    requires Local(u, Next(i, n), a, n, total, res, started) && Link(t, u, Ended(a, n, total, started), res)
    ensures Local(Signal(t, u), Next(i, n), NewTurn(t, a, n), n, total, NewRes(t, res), started)
  {
    hide Act, Signal, Local, Link, NewTurn;
    if Front(t.pc) {
      SignalLocalFront(t, i, a, n, total, res, started, pos, u);
    } else if Holding(t.pc) {
      SignalLocalHolding(t, i, a, n, total, res, started, pos, u);
    } else if t.pc == Write || t.pc == PassWrite {
      SignalLocalWriting(t, i, a, n, total, res, started, pos, u);
    } else if Working(t.pc) {
      SignalLocalCoding(t, i, a, n, total, res, started, pos, u);
    } else {
      SignalLocalFailing(t, i, a, n, total, res, started, pos, u);
    }
  }

  // What the two lemmas below need to know of the acting thread.
  predicate Plain(t: Thread, ended: bool, res: Err) {
    && t.pc != Absent && t.pc != Done && (Failing(t.pc) <==> t.err != NoErr)
    && (t.err != NoErr && t.pc != SetErr ==> res != NoErr)
    && (t.pc == RelayStop || t.pc == RelaySet ==> res != NoErr || ended)
    && (Front(t.pc) || t.pc == Read ==> !t.stop)
  }

  lemma ActsPlain(t: Thread, i: nat, a: Turn, n: nat, total: nat, res: Err, started: nat, pos: nat)
    requires Acts(t, i, a, n, total, res, started, pos)
    ensures Plain(t, Ended(a, n, total, started), res)
  {
    hide Passed, Block, ToRead;
  }

  lemma FlagsCore(t: Thread, u: Thread, pos: nat, total: nat, ok: bool, ended: bool, ended': bool, res: Err)
    requires Plain(t, ended, res) && Flags(t, u, ended, res)
    requires (ended ==> ended') && (t.pc == PassRead && t.stop ==> ended')
    ensures Flags(Act(t, pos, total, ok), Signal(t, u), ended', NewRes(t, res))
  {}

  lemma SignalledCore(t: Thread, u: Thread, pos: nat, total: nat, ok: bool, ended: bool, res: Err)
    requires Plain(t, ended, res) && Flags(t, u, ended, res) && Signalled(t, u)
    requires t.pc == MarkStop ==> !u.canRead && u.pc != CheckStop
    ensures Signalled(Act(t, pos, total, ok), Signal(t, u))
  {}

  // Passing the token of the last block leaves nothing to read.
  lemma PassedLast(t: Thread, i: nat, a: Turn, n: nat, total: nat, res: Err, started: nat, pos: nat)
    requires Acts(t, i, a, n, total, res, started, pos)
    ensures t.pc == PassRead && t.stop ==> Ended(NewTurn(t, a, n), n, total, started)
  {
    hide Passed, WritePassed;
  }

  lemma NoOtherToken(t: Thread, i: nat, a: Turn, n: nat, total: nat, res: Err, started: nat, pos: nat, u: Thread)
    requires Acts(t, i, a, n, total, res, started, pos) && n > 1
    requires Local(u, Next(i, n), a, n, total, res, started) && Flags(t, u, Ended(a, n, total, started), res)
    ensures t.pc == MarkStop ==> !u.canRead && u.pc != CheckStop
  {
    hide Passed, Block, WritePassed, ReadPassed, ToRead;
  }

  lemma LinkSelf(t: Thread, i: nat, a: Turn, n: nat, total: nat, res: Err, started: nat, pos: nat, ok: bool, u: Thread)
    requires Acts(t, i, a, n, total, res, started, pos) && n > 1
    requires Local(u, Next(i, n), a, n, total, res, started) && Link(t, u, Ended(a, n, total, started), res)
    ensures Link(Act(t, pos, total, ok), Signal(t, u), Ended(NewTurn(t, a, n), n, total, started), NewRes(t, res))
  {
    hide Act, Signal, Acts, Local, NewTurn, Flags, Signalled, Plain, Ended;
    var ended, ended' := Ended(a, n, total, started), Ended(NewTurn(t, a, n), n, total, started);
    TurnKept(t, i, a, n, total, res, started, pos, i);
    ActsPlain(t, i, a, n, total, res, started, pos);
    PassedLast(t, i, a, n, total, res, started, pos);
    NoOtherToken(t, i, a, n, total, res, started, pos, u);
    FlagsCore(t, u, pos, total, ok, ended, ended', res);
    SignalledCore(t, u, pos, total, ok, ended, res);
  }

  lemma PrevCore(p: Thread, t: Thread, pos: nat, total: nat, ok: bool, ended: bool, ended': bool, res: Err)
    requires Plain(t, ended, res) && Link(p, t, ended, res) && (ended ==> ended')
    requires (t.pc == WaitRead ==> t.canRead) && (t.pc == WaitWrite ==> t.canWrite)
    ensures Link(p, Act(t, pos, total, ok), ended', NewRes(t, res))
  {}

  lemma LinkPrev(t: Thread, i: nat, a: Turn, n: nat, total: nat, res: Err, started: nat, pos: nat, ok: bool, p: Thread)
    requires Acts(t, i, a, n, total, res, started, pos) && Link(p, t, Ended(a, n, total, started), res)
    ensures Link(p, Act(t, pos, total, ok), Ended(NewTurn(t, a, n), n, total, started), NewRes(t, res))
  {
    hide Act, Local, NewTurn, Link, Plain, Ended, ToRead;
    TurnKept(t, i, a, n, total, res, started, pos, i);
    ActsPlain(t, i, a, n, total, res, started, pos);
    PrevCore(p, t, pos, total, ok, Ended(a, n, total, started), Ended(NewTurn(t, a, n), n, total, started), res);
  }

  lemma LinkNext(t: Thread, u: Thread, v: Thread, ended: bool, res: Err)
    requires Link(u, v, ended, res)
    ensures Link(Signal(t, u), v, ended, res)
  {
    hide Signal;
    SignalFlags(t, u);
  }

  // Only the flags and events of the thread after it can change.
  lemma SignalFlags(t: Thread, u: Thread)
    ensures var x := Signal(t, u);
      && x.pc == u.pc && x.stop == u.stop && x.err == u.err && x.buf == u.buf
      && (u.stopReading && t.pc != MarkStop ==> x.stopReading)
  {}

  lemma OtherLink(t: Thread, i: nat, a: Turn, n: nat, total: nat, res: Err, started: nat, pos: nat, u: Thread,
                  v: Thread)
    requires Acts(t, i, a, n, total, res, started, pos) && Link(u, v, Ended(a, n, total, started), res)
    ensures Link(u, v, Ended(NewTurn(t, a, n), n, total, started), NewRes(t, res))
  {
    hide Passed, Block, WritePassed, ReadPassed, ToRead;
    TurnKept(t, i, a, n, total, res, started, pos, i);
  }

  // A ring of one thread signals to itself.
  lemma SoloFront(t: Thread, a: Turn, total: nat, res: Err, started: nat, pos: nat, ok: bool)
    requires Acts(t, 0, a, 1, total, res, started, pos) && Link(t, t, Ended(a, 1, total, started), res)
    requires Front(t.pc)
    ensures var x, a' := Signal(t, Act(t, pos, total, ok)), NewTurn(t, a, 1);
      Local(x, 0, a', 1, total, NewRes(t, res), started) && Link(x, x, Ended(a', 1, total, started), NewRes(t, res))
  {
    TurnKept(t, 0, a, 1, total, res, started, pos, 0);
  }

  lemma SoloHolding(t: Thread, a: Turn, total: nat, res: Err, started: nat, pos: nat, ok: bool)
    requires Acts(t, 0, a, 1, total, res, started, pos) && Link(t, t, Ended(a, 1, total, started), res)
    requires Holding(t.pc)
    ensures var x, a' := Signal(t, Act(t, pos, total, ok)), NewTurn(t, a, 1);
      Local(x, 0, a', 1, total, NewRes(t, res), started) && Link(x, x, Ended(a', 1, total, started), NewRes(t, res))
  {
    TurnKept(t, 0, a, 1, total, res, started, pos, 0);
  }

  lemma SoloCoding(t: Thread, a: Turn, total: nat, res: Err, started: nat, pos: nat, ok: bool)
    requires Acts(t, 0, a, 1, total, res, started, pos) && Link(t, t, Ended(a, 1, total, started), res)
    requires t.pc == Code || t.pc == WaitWrite || t.pc == CheckWrite
    ensures var x, a' := Signal(t, Act(t, pos, total, ok)), NewTurn(t, a, 1);
      Local(x, 0, a', 1, total, NewRes(t, res), started) && Link(x, x, Ended(a', 1, total, started), NewRes(t, res))
  {
    TurnKept(t, 0, a, 1, total, res, started, pos, 0);
  }

  lemma SoloWriting(t: Thread, a: Turn, total: nat, res: Err, started: nat, pos: nat, ok: bool)
    requires Acts(t, 0, a, 1, total, res, started, pos) && Link(t, t, Ended(a, 1, total, started), res)
    requires t.pc == Write || t.pc == PassWrite
    ensures var x, a' := Signal(t, Act(t, pos, total, ok)), NewTurn(t, a, 1);
      Local(x, 0, a', 1, total, NewRes(t, res), started) && Link(x, x, Ended(a', 1, total, started), NewRes(t, res))
  {
    TurnKept(t, 0, a, 1, total, res, started, pos, 0);
  }

  lemma SoloFailing(t: Thread, a: Turn, total: nat, res: Err, started: nat, pos: nat, ok: bool)
    requires Acts(t, 0, a, 1, total, res, started, pos) && Link(t, t, Ended(a, 1, total, started), res)
    requires Failing(t.pc)
    ensures var x, a' := Signal(t, Act(t, pos, total, ok)), NewTurn(t, a, 1);
      Local(x, 0, a', 1, total, NewRes(t, res), started) && Link(x, x, Ended(a', 1, total, started), NewRes(t, res))
  {
    TurnKept(t, 0, a, 1, total, res, started, pos, 0);
  }

  lemma Solo(t: Thread, a: Turn, total: nat, res: Err, started: nat, pos: nat, ok: bool)
    requires Acts(t, 0, a, 1, total, res, started, pos) && Link(t, t, Ended(a, 1, total, started), res)
    ensures var x, a' := Signal(t, Act(t, pos, total, ok)), NewTurn(t, a, 1);
      Local(x, 0, a', 1, total, NewRes(t, res), started) && Link(x, x, Ended(a', 1, total, started), NewRes(t, res))
  {
    hide Act, Signal, Local, Link, NewTurn;
    if Front(t.pc) {
      SoloFront(t, a, total, res, started, pos, ok);
    } else if Holding(t.pc) {
      SoloHolding(t, a, total, res, started, pos, ok);
    } else if t.pc == Write || t.pc == PassWrite {
      SoloWriting(t, a, total, res, started, pos, ok);
    } else if Working(t.pc) {
      SoloCoding(t, a, total, res, started, pos, ok);
    } else {
      SoloFailing(t, a, total, res, started, pos, ok);
    }
  }

  // ----- What a step keeps, for the whole ring ---------------------------------------------------

  lemma InvGlobal(s: State, a: Turn, total: nat, started: nat)
    requires Inv(s, a, total, started)
    ensures Global(s, a, total, started)
  {}

  lemma InvSound(s: State, a: Turn, total: nat, started: nat, q: nat)
    requires Inv(s, a, total, started) && q < |s.th|
    ensures Local(s.th[q], q, a, |s.th|, total, s.res, started)
    ensures Link(s.th[q], s.th[Next(q, |s.th|)], Ended(a, |s.th|, total, started), s.res)
  {
    hide Global, Local, Link;
    assert Sound(s, a, total, started, q);
  }

  lemma InvActs(s: State, a: Turn, total: nat, started: nat, i: nat)
    requires Inv(s, a, total, started) && Enabled(s, i)
    ensures Acts(s.th[i], i, a, |s.th|, total, s.res, started, s.pos)
  {
    hide Inv, Local, Link, ToRead, Working, Holding, Acts, Passed;
    InvGlobal(s, a, total, started);
    InvSound(s, a, total, started, i);
    MakeActs(s.th[i], i, a, |s.th|, total, s.res, started, s.pos, s.th[a.o], s.th[0]);
  }

  // x is the thread whose turn it is to read, y the first one.
  lemma MakeActs(t: Thread, i: nat, a: Turn, n: nat, total: nat, res: Err, started: nat, pos: nat, x: Thread, y: Thread)
    requires i < n && ValidTurn(a, n) && ToRead(a, n) <= total && total >= 1
    requires Local(t, i, a, n, total, res, started) && (i == a.o ==> t == x) && (i == 0 ==> t == y)
    requires t.pc != Absent && t.pc != Done && (t.pc == WaitRead ==> t.canRead) && (t.pc == WaitWrite ==> t.canWrite)
    requires pos == ToRead(a, n) + (if x.pc == MarkStop || x.pc == PassRead then 1 else 0)
    requires ToRead(a, n) == total ==> !Holding(x.pc)
    requires started < n ==> a == Turn(0, 0, 0, false) && !Holding(y.pc)
    ensures Acts(t, i, a, n, total, res, started, pos)
  {
    hide Local, ToRead;
    LocalTurn(t, i, a, n, total, res, started);
  }

  lemma LocalTurn(t: Thread, q: nat, a: Turn, n: nat, total: nat, res: Err, started: nat)
    requires Local(t, q, a, n, total, res, started)
    ensures Holding(t.pc) ==> q == a.o
    ensures Working(t.pc) ==> Passed(a, q)
    ensures t.pc == Write || t.pc == PassWrite ==> q == a.w && t.buf == Block(a, n, q)
    ensures t.stopReading || !t.canRead || q == a.o
  {}

  // The threads after a step: the acting one, the next one, the others.
  lemma After(s: State, total: nat, i: nat, ok: bool, q: nat)
    requires Enabled(s, i) && q < |s.th|
    ensures Step(s, total, i, ok).th[q] == Then(s.th[i], i, |s.th|, s.pos, total, ok, q, s.th[q])
  {
    hide Act, Signal;
  }

  // What becomes of thread q, which is v, when thread i, which is t, takes its step.
  function Then(t: Thread, i: nat, n: nat, pos: nat, total: nat, ok: bool, q: nat, v: Thread): Thread
    requires i < n
  {
    if n == 1 then Signal(t, Act(t, pos, total, ok))
    else if q == i then Act(t, pos, total, ok)
    else if q == Next(i, n) then Signal(t, v)
    else v
  }

  lemma LocalsKept(s: State, a: Turn, total: nat, started: nat, i: nat, ok: bool, q: nat)
    requires Inv(s, a, total, started) && Enabled(s, i) && q < |s.th|
    ensures var s', a' := Step(s, total, i, ok), NewTurn(s.th[i], a, |s.th|);
      Local(s'.th[q], q, a', |s.th|, total, s'.res, started)
  {
    hide Inv, Local, Link, Act, Signal, NewTurn, NewRes, Acts, Ended;
    var t, n := s.th[i], |s.th|;
    InvActs(s, a, total, started, i);
    After(s, total, i, ok, q);
    InvSound(s, a, total, started, i);
    InvSound(s, a, total, started, q);
    if n == 1 {
      Solo(t, a, total, s.res, started, s.pos, ok);
    } else if q == i {
      var p := Prev(i, n);
      InvSound(s, a, total, started, p);
      ActLocal(t, i, a, n, total, s.res, started, s.pos, ok, s.th[p]);
    } else if q == Next(i, n) {
      SignalLocal(t, i, a, n, total, s.res, started, s.pos, s.th[q]);
    } else {
      OtherLocal(t, i, a, n, total, s.res, started, s.pos, s.th[q], q);
    }
  }

  function Prev(i: nat, n: nat): (j: nat)
    requires i < n
    ensures j < n && Next(j, n) == i
  {
    if i == 0 then n - 1 else i - 1
  }

  lemma LinksKept(s: State, a: Turn, total: nat, started: nat, i: nat, ok: bool, q: nat)
    requires Inv(s, a, total, started) && Enabled(s, i) && q < |s.th|
    ensures var s', a' := Step(s, total, i, ok), NewTurn(s.th[i], a, |s.th|);
      Link(s'.th[q], s'.th[Next(q, |s.th|)], Ended(a', |s.th|, total, started), s'.res)
  {
    hide Inv, Local, Link, Act, Signal, NewTurn, NewRes, Acts, Ended;
    var t, n := s.th[i], |s.th|;
    var u := s.th[Next(i, n)];
    var x, y := s.th[q], s.th[Next(q, n)];
    InvActs(s, a, total, started, i);
    After(s, total, i, ok, q);
    After(s, total, i, ok, Next(q, n));
    InvSound(s, a, total, started, i);
    InvSound(s, a, total, started, q);
    InvSound(s, a, total, started, Next(i, n));
    var ended', res' := Ended(NewTurn(t, a, n), n, total, started), NewRes(t, s.res);
    if n == 1 {
      Solo(t, a, total, s.res, started, s.pos, ok);
    } else if q == i {
      LinkSelf(t, i, a, n, total, s.res, started, s.pos, ok, u);
    } else if Next(q, n) == i {
      LinkPrev(t, i, a, n, total, s.res, started, s.pos, ok, x);
      if q == Next(i, n) { LinkNext(t, x, Act(t, s.pos, total, ok), ended', res'); }
    } else {
      OtherLink(t, i, a, n, total, s.res, started, s.pos, x, y);
      if q == Next(i, n) { LinkNext(t, x, y, ended', res'); }
    }
  }

  // The turn after a step, for the reading and for the writing thread. t acts; x had the turn,
  // and v is to have it.
  predicate Turns(t: Thread, i: nat, o: nat, o': nat, n: nat, pass: bool, x: Thread, v: Thread) {
    && i < n && o < n && o' == (if pass then Next(i, n) else o) && (pass ==> i == o)
    && (i == o ==> t == x) && (i == o' ==> t == v) && (o == o' ==> x == v)
  }

  lemma ReadTokenPassed(t: Thread, i: nat, o: nat, o': nat, n: nat, pos: nat, total: nat, ok: bool, x: Thread,
                        v: Thread)
    requires Turns(t, i, o, o', n, t.pc == PassRead, x, v)
    requires HasReadToken(x) && (t.pc == WaitRead ==> t.canRead)
    requires t.pc == PassRead
    ensures HasReadToken(Then(t, i, n, pos, total, ok, o', v))
  {}

  lemma ReadTokenStays(t: Thread, i: nat, o: nat, o': nat, n: nat, pos: nat, total: nat, ok: bool, x: Thread, v: Thread)
    requires Turns(t, i, o, o', n, t.pc == PassRead, x, v)
    requires HasReadToken(x) && (t.pc == WaitRead ==> t.canRead)
    requires t.pc != PassRead
    ensures HasReadToken(Then(t, i, n, pos, total, ok, o', v))
  {}

  lemma ReadTokenCore(t: Thread, i: nat, o: nat, o': nat, n: nat, pos: nat, total: nat, ok: bool, x: Thread, v: Thread)
    requires Turns(t, i, o, o', n, t.pc == PassRead, x, v)
    requires HasReadToken(x) && (t.pc == WaitRead ==> t.canRead)
    ensures HasReadToken(Then(t, i, n, pos, total, ok, o', v))
  {
    hide Turns, Then, HasReadToken, HasWriteToken;
    if t.pc == PassRead {
      ReadTokenPassed(t, i, o, o', n, pos, total, ok, x, v);
    } else {
      ReadTokenStays(t, i, o, o', n, pos, total, ok, x, v);
    }
  }

  lemma WriteTokenPassed(t: Thread, i: nat, w: nat, w': nat, n: nat, pos: nat, total: nat, ok: bool, x: Thread,
                         v: Thread)
    requires Turns(t, i, w, w', n, t.pc == PassWrite, x, v)
    requires HasWriteToken(x) && (t.pc == WaitWrite ==> t.canWrite)
    requires t.pc == PassWrite
    ensures HasWriteToken(Then(t, i, n, pos, total, ok, w', v))
  {}

  lemma WriteTokenStays(t: Thread, i: nat, w: nat, w': nat, n: nat, pos: nat, total: nat, ok: bool, x: Thread,
                        v: Thread)
    requires Turns(t, i, w, w', n, t.pc == PassWrite, x, v)
    requires HasWriteToken(x) && (t.pc == WaitWrite ==> t.canWrite)
    requires t.pc != PassWrite
    ensures HasWriteToken(Then(t, i, n, pos, total, ok, w', v))
  {}

  lemma WriteTokenCore(t: Thread, i: nat, w: nat, w': nat, n: nat, pos: nat, total: nat, ok: bool, x: Thread, v: Thread)
    requires Turns(t, i, w, w', n, t.pc == PassWrite, x, v)
    requires HasWriteToken(x) && (t.pc == WaitWrite ==> t.canWrite)
    ensures HasWriteToken(Then(t, i, n, pos, total, ok, w', v))
  {
    hide Turns, Then, HasReadToken, HasWriteToken;
    if t.pc == PassWrite {
      WriteTokenPassed(t, i, w, w', n, pos, total, ok, x, v);
    } else {
      WriteTokenStays(t, i, w, w', n, pos, total, ok, x, v);
    }
  }

  lemma ActCounts(t: Thread, pos: nat, total: nat, ok: bool)
    ensures var x := Act(t, pos, total, ok);
      && HasRead(x) + (if t.pc == PassRead then 1 else 0) == HasRead(t) + (if t.pc == Read && ok then 1 else 0)
      && HasWritten(x) + (if t.pc == PassWrite then 1 else 0) == HasWritten(t) + (if t.pc == Write && ok then 1 else 0)
  {}

  lemma PosCore(t: Thread, i: nat, o: nat, o': nat, n: nat, pos: nat, total: nat, ok: bool, x: Thread, v: Thread)
    requires Turns(t, i, o, o', n, t.pc == PassRead, x, v) && (Holding(t.pc) ==> i == o)
    requires o' != o ==> !Holding(v.pc)
    ensures var v' := Then(t, i, n, pos, total, ok, o', v);
      HasRead(v') + (if t.pc == PassRead then 1 else 0) == HasRead(x) + (if t.pc == Read && ok then 1 else 0)
  {
    hide Signal, Act;
    ActCounts(t, pos, total, ok);
    SignalFlags(t, v);
    SignalFlags(t, Act(t, pos, total, ok));
  }

  lemma OutCore(t: Thread, i: nat, w: nat, w': nat, n: nat, pos: nat, total: nat, ok: bool, x: Thread, v: Thread)
    requires Turns(t, i, w, w', n, t.pc == PassWrite, x, v) && (t.pc == Write || t.pc == PassWrite ==> i == w)
    requires w' != w ==> v.pc != PassWrite
    ensures var v' := Then(t, i, n, pos, total, ok, w', v);
      HasWritten(v') + (if t.pc == PassWrite then 1 else 0) == HasWritten(x) + (if t.pc == Write && ok then 1 else 0)
  {
    hide Signal, Act;
    ActCounts(t, pos, total, ok);
    SignalFlags(t, v);
    SignalFlags(t, Act(t, pos, total, ok));
  }

  // A thread that has been told to stop reading stays so and does not come to read.
  lemma StopCore(t: Thread, i: nat, o: nat, n: nat, pos: nat, total: nat, ok: bool, v: Thread)
    requires i < n && o < n && (i == o ==> t == v) && !Holding(t.pc) && v.stopReading && !Holding(v.pc)
    ensures var v' := Then(t, i, n, pos, total, ok, o, v); v'.stopReading && !Holding(v'.pc)
  {
    hide Signal;
    SignalFlags(t, v);
    SignalFlags(t, Act(t, pos, total, ok));
  }

  lemma PassCore(t: Thread, i: nat, n: nat, pos: nat, total: nat, ok: bool, v: Thread)
    requires i < n && t.pc == PassRead && v.stopReading && (if n == 1 then v == t else !Holding(v.pc))
    ensures var v' := Then(t, i, n, pos, total, ok, Next(i, n), v); v'.stopReading && !Holding(v'.pc)
  {}

  lemma TurnElse(t: Thread, i: nat, a: Turn, n: nat, total: nat, res: Err, started: nat, pos: nat)
    requires Acts(t, i, a, n, total, res, started, pos)
    ensures var a' := NewTurn(t, a, n);
      && a'.o == (if t.pc == PassRead then Next(i, n) else a.o)
      && a'.w == (if t.pc == PassWrite then Next(i, n) else a.w)
      && ToWrite(a') == ToWrite(a) + (if t.pc == PassWrite then 1 else 0)
      && (t.pc != PassRead && t.pc != PassWrite ==> a' == a)
  {}

  // What the turn and the buffer of the acting thread say together.
  lemma BufCore(t: Thread, i: nat, a: Turn, n: nat, total: nat, res: Err, started: nat, pos: nat)
    requires Acts(t, i, a, n, total, res, started, pos)
    ensures t.pc == Write ==> t.buf == ToWrite(a)
    ensures t.pc == PassRead ==> t.stop == (ToRead(a, n) + 1 >= total)
    ensures NewRes(t, res) == FailErr ==> res == FailErr
  {}

  lemma TokensKept(s: State, a: Turn, total: nat, started: nat, i: nat, ok: bool)
    requires Inv(s, a, total, started) && Enabled(s, i)
    ensures var s', a' := Step(s, total, i, ok), NewTurn(s.th[i], a, |s.th|);
      ValidTurn(a', |s.th|) && HasReadToken(s'.th[a'.o]) && HasWriteToken(s'.th[a'.w])
  {
    hide Inv, Local, Link, ToRead, ToWrite, WritePassed, ReadPassed, Acts, Act, Signal, Then, NewTurn, HasReadToken,
         HasWriteToken, Holding, Working, BeforeWrite, Passed, Leaving, Front, Failing;
    var t, n, a' := s.th[i], |s.th|, NewTurn(s.th[i], a, |s.th|);
    InvGlobal(s, a, total, started);
    InvActs(s, a, total, started, i);
    TurnKept(t, i, a, n, total, s.res, started, s.pos, i);
    TurnElse(t, i, a, n, total, s.res, started, s.pos);
    After(s, total, i, ok, a'.o);
    After(s, total, i, ok, a'.w);
    ReadTokenCore(t, i, a.o, a'.o, n, s.pos, total, ok, s.th[a.o], s.th[a'.o]);
    WriteTokenCore(t, i, a.w, a'.w, n, s.pos, total, ok, s.th[a.w], s.th[a'.w]);
  }

  lemma StreamsKept(s: State, a: Turn, total: nat, started: nat, i: nat, ok: bool)
    requires Inv(s, a, total, started) && Enabled(s, i)
    ensures var s', a', n := Step(s, total, i, ok), NewTurn(s.th[i], a, |s.th|), |s.th|;
      && ValidTurn(a', n)
      && |s'.out| == ToWrite(a') + HasWritten(s'.th[a'.w])
      && (forall k :: 0 <= k < |s'.out| ==> s'.out[k] == k)
      && s'.pos == ToRead(a', n) + HasRead(s'.th[a'.o])
  {
    hide Inv, Local, Link, ToRead, ToWrite, WritePassed, ReadPassed, Acts, Act, Signal, Then, NewTurn, HasReadToken,
         HasWriteToken, Working, BeforeWrite, Passed, Leaving, Front, Failing;
    var t, n, a' := s.th[i], |s.th|, NewTurn(s.th[i], a, |s.th|);
    InvGlobal(s, a, total, started);
    InvActs(s, a, total, started, i);
    InvSound(s, a, total, started, i);
    LocalTurn(t, i, a, n, total, s.res, started);
    TurnKept(t, i, a, n, total, s.res, started, s.pos, i);
    TurnElse(t, i, a, n, total, s.res, started, s.pos);
    BufCore(t, i, a, n, total, s.res, started, s.pos);
    After(s, total, i, ok, a'.o);
    After(s, total, i, ok, a'.w);
    InvSound(s, a, total, started, a'.o);
    InvSound(s, a, total, started, a'.w);
    LocalTurn(s.th[a'.o], a'.o, a, n, total, s.res, started);
    LocalTurn(s.th[a'.w], a'.w, a, n, total, s.res, started);
    PosCore(t, i, a.o, a'.o, n, s.pos, total, ok, s.th[a.o], s.th[a'.o]);
    OutCore(t, i, a.w, a'.w, n, s.pos, total, ok, s.th[a.w], s.th[a'.w]);
  }

  lemma EndKept(s: State, a: Turn, total: nat, started: nat, i: nat, ok: bool)
    requires Inv(s, a, total, started) && Enabled(s, i)
    ensures var s', a', n := Step(s, total, i, ok), NewTurn(s.th[i], a, |s.th|), |s.th|;
      && ValidTurn(a', n)
      && (ToRead(a', n) == total ==> s'.th[a'.o].stopReading && !Holding(s'.th[a'.o].pc))
      && (started < n ==> a' == Turn(0, 0, 0, false) && s'.th[0].stopReading && !Holding(s'.th[0].pc))
      && s'.res != FailErr
  {
    hide Inv, Local, Link, ToRead, ToWrite, WritePassed, ReadPassed, Acts, Act, Signal, Then, NewTurn, HasReadToken,
         HasWriteToken, BeforeWrite, Passed, Leaving, Front, Failing, Holding, NewRes;
    var t, n, a' := s.th[i], |s.th|, NewTurn(s.th[i], a, |s.th|);
    InvGlobal(s, a, total, started);
    InvActs(s, a, total, started, i);
    ActsEnd(t, i, a, n, total, s.res, started, s.pos);
    TurnKept(t, i, a, n, total, s.res, started, s.pos, i);
    TurnElse(t, i, a, n, total, s.res, started, s.pos);
    BufCore(t, i, a, n, total, s.res, started, s.pos);
    After(s, total, i, ok, a'.o);
    After(s, total, i, ok, 0);
    InvSound(s, a, total, started, a'.o);
    InvSound(s, a, total, started, i);
    LocalTurn(s.th[a'.o], a'.o, a, n, total, s.res, started);
    if t.pc == PassRead {
      if ToRead(a', n) == total {
        PassedOn(t, s.th[a'.o], Ended(a, n, total, started), s.res);
        PassCore(t, i, n, s.pos, total, ok, s.th[a'.o]);
      }
    } else if ToRead(a, n) == total {
      StopCore(t, i, a.o, n, s.pos, total, ok, s.th[a.o]);
    }
    if started < n {
      StopCore(t, i, 0, n, s.pos, total, ok, s.th[0]);
    }
  }

  lemma ActsEnd(t: Thread, i: nat, a: Turn, n: nat, total: nat, res: Err, started: nat, pos: nat)
    requires Acts(t, i, a, n, total, res, started, pos)
    ensures ToRead(a, n) == total || started < n ==> !Holding(t.pc)
    ensures t.pc == PassRead ==> i == a.o && Holding(t.pc)
    ensures started < n ==> t.pc != PassWrite
  {
    hide Passed;
  }

  lemma PassedOn(t: Thread, u: Thread, ended: bool, res: Err)
    requires Link(t, u, ended, res) && t.pc == PassRead && t.stop
    ensures u.stopReading
  {}

  lemma GlobalKept(s: State, a: Turn, total: nat, started: nat, i: nat, ok: bool)
    requires Inv(s, a, total, started) && Enabled(s, i)
    ensures Global(Step(s, total, i, ok), NewTurn(s.th[i], a, |s.th|), total, started)
  {
    hide Inv, Acts, Act, Signal, NewTurn, ToRead, ToWrite, HasReadToken, HasWriteToken, Holding, Step;
    InvGlobal(s, a, total, started);
    InvActs(s, a, total, started, i);
    TurnKept(s.th[i], i, a, |s.th|, total, s.res, started, s.pos, i);
    TokensKept(s, a, total, started, i, ok);
    StreamsKept(s, a, total, started, i, ok);
    EndKept(s, a, total, started, i, ok);
  }

  // Every step keeps the invariant, whichever thread takes it and however its call turns out.
  lemma StepKeeps(s: State, a: Turn, total: nat, started: nat, i: nat, ok: bool)
    requires Inv(s, a, total, started) && Enabled(s, i)
    ensures Inv(Step(s, total, i, ok), NewTurn(s.th[i], a, |s.th|), total, started)
  {
    hide Local, Link, Act, Signal, NewTurn, NewRes, Global, Ended;
    GlobalKept(s, a, total, started, i, ok);
    forall q: nat | q < |s.th|
      ensures Sound(Step(s, total, i, ok), NewTurn(s.th[i], a, |s.th|), total, started, q)
    {
      LocalsKept(s, a, total, started, i, ok, q);
      LinksKept(s, a, total, started, i, ok, q);
    }
    assert |Step(s, total, i, ok).th| == |s.th|;
  }

  // ----- Safety over every run -------------------------------------------------------------------

  lemma {:induction false} RunKeeps(n: nat, started: nat, total: nat, moves: seq<Move>, s: State) returns (a: Turn)
    requires 1 <= n && started <= n && total >= 1 && IsRun(n, started, total, moves, s)
    ensures |s.th| == n && Inv(s, a, total, started)
    decreases |moves|
  {
    hide Inv, Step, Initial;
    if moves == [] {
      Starts(n, started, total);
      a := Turn(0, 0, 0, false);
      InitialSize(n, started);
    } else {
      var m := moves[|moves| - 1];
      var s0 :| IsRun(n, started, total, moves[..|moves| - 1], s0) && Enabled(s0, m.thread) &&
                s == Step(s0, total, m.thread, m.ok);
      var a0 := RunKeeps(n, started, total, moves[..|moves| - 1], s0);
      StepKeeps(s0, a0, total, started, m.thread, m.ok);
      a := NewTurn(s0.th[m.thread], a0, n);
    }
  }

  lemma InitialSize(n: nat, started: nat)
    requires started <= n
    ensures |Initial(n, started).th| == n
  {}

  predicate Writing(pc: Pc) { pc == Write || pc == PassWrite }

  // Main result: in every interleaving at most one thread reads and at most one writes, what has
  // been written is a beginning of the blocks in input order, and the error kept is one that a
  // stream or the coder reported.
  lemma RingSafe(n: nat, started: nat, total: nat, moves: seq<Move>, s: State)
    requires 1 <= n && started <= n && total >= 1 && IsRun(n, started, total, moves, s)
    ensures |s.th| == n
    ensures forall p, q :: 0 <= p < n && 0 <= q < n && Holding(s.th[p].pc) && Holding(s.th[q].pc) ==> p == q
    ensures forall p, q :: 0 <= p < n && 0 <= q < n && Writing(s.th[p].pc) && Writing(s.th[q].pc) ==> p == q
    ensures |s.out| <= total && forall k :: 0 <= k < |s.out| ==> s.out[k] == k
    ensures s.res != FailErr
  {
    hide Inv, Local, Link, IsRun, Holding;
    var a := RunKeeps(n, started, total, moves, s);
    InvGlobal(s, a, total, started);
    forall q: nat | q < n
      ensures Holding(s.th[q].pc) ==> q == a.o
      ensures Writing(s.th[q].pc) ==> q == a.w
    {
      InvSound(s, a, total, started, q);
      LocalTurn(s.th[q], q, a, n, total, s.res, started);
    }
    InvSound(s, a, total, started, a.w);
    WrittenInside(s.th[a.w], a.w, a, n, total, s.res, started);
  }

  lemma WrittenInside(t: Thread, q: nat, a: Turn, n: nat, total: nat, res: Err, started: nat)
    requires q == a.w && ValidTurn(a, n) && ToRead(a, n) <= total && Local(t, q, a, n, total, res, started)
    ensures ToWrite(a) + HasWritten(t) <= total
  {}

  // ----- Every run ends with all threads finished ---------------------------------------------

  ghost predicate Stuck(s: State) { forall i: nat :: i < |s.th| ==> !Enabled(s, i) }

  // If a thread waited for its write token for ever, so would the one before it, down to the one
  // whose turn it is, which has the token.
  lemma {:induction false} NobodyWaitsToWrite(s: State, a: Turn, total: nat, started: nat, q: nat)
    requires Inv(s, a, total, started) && Stuck(s) && q < |s.th|
    ensures s.th[q].pc != WaitWrite
    decreases Block(a, |s.th|, q)
  {
    hide Inv, Local, Link, HasReadToken, ToRead;
    var n, p := |s.th|, Prev(q, |s.th|);
    InvGlobal(s, a, total, started);
    if s.th[q].pc == WaitWrite {
      assert !Enabled(s, q) && !Enabled(s, p);
      InvSound(s, a, total, started, q);
      InvSound(s, a, total, started, p);
      WaitsPassed(s.th[q], q, a, n, total, s.res, started);
      if q != a.w {
        PassedHas(s.th[p], p, a, n, total, s.res, started);
        if s.th[p].pc == Done {
          SignalledWrite(s.th[p], s.th[q], Ended(a, n, total, started), s.res);
        }
        NobodyWaitsToWrite(s, a, total, started, p);
      }
    }
  }

  lemma WaitsPassed(t: Thread, q: nat, a: Turn, n: nat, total: nat, res: Err, started: nat)
    requires Local(t, q, a, n, total, res, started) && t.pc == WaitWrite
    ensures Passed(a, q)
  {}

  // A thread that has passed the read token on is at work, failing, or gone after an error.
  lemma PassedHas(t: Thread, q: nat, a: Turn, n: nat, total: nat, res: Err, started: nat)
    requires Local(t, q, a, n, total, res, started) && Passed(a, q)
    ensures t.pc != WaitRead && (t.pc == Done ==> t.err != NoErr) && (t.pc == Absent ==> q >= started)
  {}

  lemma SignalledWrite(t: Thread, u: Thread, ended: bool, res: Err)
    requires Link(t, u, ended, res) && t.pc == Done && u.pc == WaitWrite
    ensures t.err != NoErr ==> u.canWrite
  {}

  lemma SignalledRead(t: Thread, u: Thread, ended: bool, res: Err)
    requires Link(t, u, ended, res) && t.pc == Done && u.pc == WaitRead
    ensures u.canRead
  {}

  // How many places after the one whose turn it is to read.
  function Behind(a: Turn, n: nat, q: nat): nat
    requires ValidTurn(a, n)
  {
    if q >= a.o then q - a.o else q + n - a.o
  }

  lemma BehindPrev(a: Turn, n: nat, q: nat)
    requires ValidTurn(a, n) && q < n && q != a.o
    ensures Behind(a, n, Prev(q, n)) < Behind(a, n, q)
  {}

  lemma {:induction false} NobodyWaitsToRead(s: State, a: Turn, total: nat, started: nat, q: nat)
    requires Inv(s, a, total, started) && Stuck(s) && q < |s.th| && ValidTurn(a, |s.th|)
    ensures s.th[q].pc != WaitRead
    decreases Behind(a, |s.th|, q)
  {
    hide Inv, Local, Link, HasWriteToken, ToRead, ToWrite, Working, Holding, Behind;
    var n, p := |s.th|, Prev(q, |s.th|);
    if s.th[q].pc == WaitRead {
      assert !Enabled(s, q) && !Enabled(s, p);
      InvGlobal(s, a, total, started);
      InvSound(s, a, total, started, q);
      InvSound(s, a, total, started, p);
      Starters(s.th[q], q, a, n, total, s.res, started);
      Starters(s.th[p], p, a, n, total, s.res, started);
      if q != a.o {
        BehindPrev(a, n, q);
        NobodyWaitsToWrite(s, a, total, started, p);
        NobodyWaitsToRead(s, a, total, started, p);
        if s.th[p].pc == Done {
          SignalledRead(s.th[p], s.th[q], Ended(a, n, total, started), s.res);
        }
      }
    }
  }

  lemma Starters(t: Thread, q: nat, a: Turn, n: nat, total: nat, res: Err, started: nat)
    requires Local(t, q, a, n, total, res, started)
    ensures t.pc == Absent <==> q >= started
  {}

  // Main result: the ring never gets stuck. When no thread can take a step, all of them have
  // finished, after the end of input as well as after errors.
  lemma NoDeadlock(n: nat, started: nat, total: nat, moves: seq<Move>, s: State)
    requires 1 <= n && started <= n && total >= 1 && IsRun(n, started, total, moves, s) && Stuck(s)
    ensures |s.th| == n && forall q :: 0 <= q < n ==> s.th[q].pc == (if q < started then Done else Absent)
  {
    hide Inv, IsRun, Local, Link;
    var a := RunKeeps(n, started, total, moves, s);
    InvGlobal(s, a, total, started);
    forall q: nat | q < n
      ensures s.th[q].pc == if q < started then Done else Absent
    {
      assert !Enabled(s, q);
      NobodyWaitsToWrite(s, a, total, started, q);
      NobodyWaitsToRead(s, a, total, started, q);
      InvSound(s, a, total, started, q);
      Starters(s.th[q], q, a, n, total, s.res, started);
    }
  }

  // ----- No run goes on for ever -------------------------------------------------------------------

  // How far a thread is from its end, if it reads no further block.
  function Rank(t: Thread): nat {
    match t.pc
    case Absent => 0
    case Done => 0
    case ErrSetWrite => 1
    case ErrSetRead => 2
    case ErrStopWrite => 3
    case ErrStopRead => 4
    case SetErr => 5
    case RelaySet => 1
    case RelayStop => 2
    case PassWrite => if t.stop then 6 else 16
    case Write => if t.stop then 7 else 17
    case CheckWrite => if t.stop then 8 else 18
    case WaitWrite => if t.stop then 9 else 19
    case Code => if t.stop then 10 else 20
    case PassRead => if t.stop then 11 else 21
    case MarkStop => if t.stop then 12 else 22
    case Read => 13
    case CheckStop => 14
    case WaitRead => 15
  }

  function Ranks(th: seq<Thread>): nat {
    if th == [] then 0 else Ranks(th[..|th| - 1]) + Rank(th[|th| - 1])
  }

  function Measure(s: State, total: nat): nat { Ranks(s.th) + 10 * if s.pos < total then total - s.pos else 0 }

  lemma {:induction false} RanksPut(th: seq<Thread>, i: nat, t: Thread)
    requires i < |th|
    ensures Ranks(th[i := t]) == Ranks(th) - Rank(th[i]) + Rank(t)
    decreases |th|
  {
    hide Rank;
    var k := |th| - 1;
    if i == k {
      assert th[i := t][..k] == th[..k];
    } else {
      RanksPut(th[..k], i, t);
      assert th[i := t][..k] == th[..k][i := t];
    }
  }

  lemma ActRank(t: Thread, pos: nat, total: nat, ok: bool)
    requires t.pc != Absent && t.pc != Done && (t.pc == Read ==> pos < total)
    ensures Rank(Act(t, pos, total, ok)) < Rank(t) + if t.pc == Read && ok then 10 else 0
  {}

  lemma StepDown(s: State, a: Turn, total: nat, started: nat, i: nat, ok: bool)
    requires Inv(s, a, total, started) && Enabled(s, i)
    ensures Measure(Step(s, total, i, ok), total) < Measure(s, total)
  {
    hide Inv, Act, Signal, Acts, Rank, Ranks, NewRes, NewOut;
    var t, n := s.th[i], Next(i, |s.th|);
    var th := s.th[i := Act(t, s.pos, total, ok)];
    InvActs(s, a, total, started, i);
    ReadsInside(t, i, a, |s.th|, total, s.res, started, s.pos);
    ActRank(t, s.pos, total, ok);
    RanksPut(s.th, i, Act(t, s.pos, total, ok));
    RanksPut(th, n, Signal(t, th[n]));
    SameRank(t, th[n]);
  }

  lemma ReadsInside(t: Thread, i: nat, a: Turn, n: nat, total: nat, res: Err, started: nat, pos: nat)
    requires Acts(t, i, a, n, total, res, started, pos)
    ensures t.pc == Read ==> pos < total
  {
    hide Local;
  }

  lemma SameRank(t: Thread, u: Thread)
    ensures Rank(Signal(t, u)) == Rank(u)
  {
    hide Signal;
    SignalFlags(t, u);
  }

  // Main result: every run is finite, with a bound known beforehand. So, by NoDeadlock, every
  // thread finishes, however the steps interleave.
  lemma {:induction false} RunsEnd(n: nat, started: nat, total: nat, moves: seq<Move>, s: State)
    requires 1 <= n && started <= n && total >= 1 && IsRun(n, started, total, moves, s)
    ensures |moves| + Measure(s, total) <= 15 * started + 10 * total
    decreases |moves|
  {
    hide Inv, Step, Measure;
    if moves == [] {
      InitialRanks(n, started, total);
    } else {
      var m, before := moves[|moves| - 1], moves[..|moves| - 1];
      var s0 :| IsRun(n, started, total, before, s0) && Enabled(s0, m.thread) && s == Step(s0, total, m.thread, m.ok);
      var a0 := RunKeeps(n, started, total, before, s0);
      StepDown(s0, a0, total, started, m.thread, m.ok);
      RunsEnd(n, started, total, before, s0);
    }
  }

  lemma InitialRanks(n: nat, started: nat, total: nat)
    requires started <= n
    ensures Measure(Initial(n, started), total) == 15 * started + 10 * total
  {
    FirstRanks(n, started, n);
    assert Initial(n, started).th[..n] == Initial(n, started).th;
  }

  lemma {:induction false} FirstRanks(n: nat, started: nat, k: nat)
    requires started <= n && k <= n
    ensures Ranks(Initial(n, started).th[..k]) == 15 * if k < started then k else started
  {
    if k > 0 {
      FirstRanks(n, started, k - 1);
      assert Initial(n, started).th[..k][..k - 1] == Initial(n, started).th[..k - 1];
    }
  }

  // ----- If nothing fails, everything is written ------------------------------------------------------

  ghost predicate Healthy(s: State) {
    s.res == NoErr && forall q :: 0 <= q < |s.th| ==> s.th[q].err == NoErr
  }

  lemma HealthyStep(s: State, a: Turn, total: nat, started: nat, i: nat)
    requires Inv(s, a, total, started) && Enabled(s, i) && Healthy(s)
    ensures Healthy(Step(s, total, i, true))
  {
    hide Inv, Link, Signal, Ended, Passed, Block;
    var t, n := s.th[i], |s.th|;
    InvSound(s, a, total, started, i);
    forall q: nat | q < n
      ensures Step(s, total, i, true).th[q].err == NoErr
    {
      After(s, total, i, true, q);
      SignalFlags(t, s.th[q]);
      SignalFlags(t, Act(t, s.pos, total, true));
    }
  }

  lemma {:induction false} RunHealthy(n: nat, started: nat, total: nat, moves: seq<Move>, s: State)
    requires 1 <= n && started <= n && total >= 1 && IsRun(n, started, total, moves, s)
    requires forall m :: m in moves ==> m.ok
    ensures Healthy(s)
    decreases |moves|
  {
    hide Inv, Step;
    if moves != [] {
      var m, before := moves[|moves| - 1], moves[..|moves| - 1];
      var s0 :| IsRun(n, started, total, before, s0) && Enabled(s0, m.thread) && s == Step(s0, total, m.thread, m.ok);
      var a0 := RunKeeps(n, started, total, before, s0);
      RunHealthy(n, started, total, before, s0);
      HealthyStep(s0, a0, total, started, m.thread);
    }
  }

  // Main result: when all have finished and no error is reported, every block has been written.
  lemma AllWritten(n: nat, total: nat, moves: seq<Move>, s: State)
    requires 1 <= n && total >= 1 && IsRun(n, n, total, moves, s) && Stuck(s)
    ensures s.res == NoErr ==> |s.out| == total
    ensures (forall m :: m in moves ==> m.ok) ==> s.res == NoErr
  {
    hide Inv, IsRun, Local, Link, Ended;
    var a := RunKeeps(n, n, total, moves, s);
    NoDeadlock(n, n, total, moves, s);
    InvGlobal(s, a, total, n);
    if forall m :: m in moves ==> m.ok {
      RunHealthy(n, n, total, moves, s);
    }
    if s.res == NoErr {
      InvSound(s, a, total, n, a.o);
      InvSound(s, a, total, n, a.w);
      InvSound(s, a, total, n, Prev(a.o, n));
      LeftClean(s.th[a.o], a.o, a, n, total, n);
      LeftClean(s.th[a.w], a.w, a, n, total, n);
      ToldToStop(s.th[Prev(a.o, n)], s.th[a.o], a, n, total);
    }
  }

  lemma LeftClean(t: Thread, q: nat, a: Turn, n: nat, total: nat, started: nat)
    requires Local(t, q, a, n, total, NoErr, started) && t.pc == Done
    ensures !Passed(a, q)
  {}

  lemma ToldToStop(t: Thread, u: Thread, a: Turn, n: nat, total: nat)
    requires Link(t, u, Ended(a, n, total, n), NoErr) && t.pc == Done
    ensures ToRead(a, n) == total
  {
    hide ToRead;
  }

  // ----- Which error is kept ----------------------------------------------------------------------------

  // The state a list of moves leads to; a move that is not possible changes nothing.
  function Play(n: nat, started: nat, total: nat, moves: seq<Move>): (s: State)
    requires started <= n
    ensures |s.th| == n
    decreases |moves|
  {
    if moves == [] then Initial(n, started)
    else
      var s0, m := Play(n, started, total, moves[..|moves| - 1]), moves[|moves| - 1];
      if Enabled(s0, m.thread) then Step(s0, total, m.thread, m.ok) else s0
  }

  lemma {:induction false} RunPlays(n: nat, started: nat, total: nat, moves: seq<Move>, s: State)
    requires started <= n && IsRun(n, started, total, moves, s)
    ensures s == Play(n, started, total, moves)
    ensures moves != [] ==>
      var m, s0 := moves[|moves| - 1], Play(n, started, total, moves[..|moves| - 1]);
      && IsRun(n, started, total, moves[..|moves| - 1], s0) && Enabled(s0, m.thread)
      && s == Step(s0, total, m.thread, m.ok)
    decreases |moves|
  {
    hide Step, Enabled, Initial;
    if moves != [] {
      var m, before := moves[|moves| - 1], moves[..|moves| - 1];
      var s0 :| IsRun(n, started, total, before, s0) && Enabled(s0, m.thread) && s == Step(s0, total, m.thread, m.ok);
      RunPlays(n, started, total, before, s0);
    }
  }

  // Where its thread stood when move k was made.
  function PcAt(n: nat, started: nat, total: nat, moves: seq<Move>, k: nat): Pc
    requires started <= n && k < |moves|
  {
    var th := Play(n, started, total, moves[..k]).th;
    if moves[k].thread < n then th[moves[k].thread].pc else Absent
  }

  // Move j was a call at pc that failed, and its thread has not moved again before move k.
  ghost predicate FailedAt(n: nat, started: nat, total: nat, moves: seq<Move>, q: nat, pc: Pc, j: nat, k: nat)
    requires started <= n
  {
    && j < k <= |moves| && moves[j].thread == q && !moves[j].ok && PcAt(n, started, total, moves, j) == pc
    && forall i :: j < i < k ==> moves[i].thread != q
  }

  lemma FailedEarlier(n: nat, started: nat, total: nat, moves: seq<Move>, q: nat, pc: Pc, j: nat, k: nat, e: nat)
    requires started <= n && e <= |moves| && FailedAt(n, started, total, moves[..e], q, pc, j, k)
    ensures FailedAt(n, started, total, moves, q, pc, j, k)
  {
    assert moves[..e][..j] == moves[..j];
    forall i | j < i < k
      ensures moves[i].thread != q
    {
      assert moves[..e][i] == moves[i];
    }
  }

  // The call a reported error comes from.
  function CallOf(e: Err): Pc { if e == ReadErr then Read else if e == CodeErr then Code else Write }

  lemma EntersFailing(t: Thread, pos: nat, total: nat, ok: bool)
    requires Act(t, pos, total, ok).pc == SetErr && Act(t, pos, total, ok).err != FailErr && t.pc != SetErr
    ensures !ok && t.pc == CallOf(Act(t, pos, total, ok).err)
    ensures Act(t, pos, total, ok).err in {ReadErr, CodeErr, WriteErr}
  {}

  // A thread about to report an error has it from its last call.
  lemma {:induction false} ErrorOrigin(n: nat, started: nat, total: nat, moves: seq<Move>, s: State, q: nat)
      returns (j: nat)
    requires 1 <= n && started <= n && IsRun(n, started, total, moves, s) && q < n && |s.th| == n
    requires s.th[q].pc == SetErr && s.th[q].err != FailErr
    ensures s.th[q].err in {ReadErr, CodeErr, WriteErr}
    ensures FailedAt(n, started, total, moves, q, CallOf(s.th[q].err), j, |moves|)
    decreases |moves|
  {
    hide IsRun, Signal, Enabled, CallOf, Act;
    RunPlays(n, started, total, moves, s);
    if moves == [] {
      assert false;
    } else {
      var m, before := moves[|moves| - 1], moves[..|moves| - 1];
      var s0 := Play(n, started, total, before);
      StepShows(s0, total, m.thread, m.ok, q);
      if m.thread == q {
        ActEnds(s0.th[q], s0.pos, total, m.ok);
        EntersFailing(s0.th[q], s0.pos, total, m.ok);
        j := |before|;
      } else {
        j := ErrorOrigin(n, started, total, before, s0, q);
        FailedEarlier(n, started, total, moves, q, CallOf(s.th[q].err), j, |before|, |before|);
      }
    }
  }

  lemma ActEnds(t: Thread, pos: nat, total: nat, ok: bool)
    ensures t.pc == SetErr ==> Act(t, pos, total, ok).pc != SetErr
  {}

  // A step shows in the place and the error of the thread that takes it only.
  lemma StepShows(s: State, total: nat, i: nat, ok: bool, q: nat)
    requires Enabled(s, i) && q < |s.th|
    ensures var u, t := Step(s, total, i, ok).th[q], if q == i then Act(s.th[i], s.pos, total, ok) else s.th[q];
      u.pc == t.pc && u.err == t.err
  {
    hide Act, Signal;
    After(s, total, i, ok, q);
    SignalFlags(s.th[i], s.th[q]);
    SignalFlags(s.th[i], Act(s.th[i], s.pos, total, ok));
  }

  // No error is kept as long as no thread has reported one.
  lemma {:induction false} NoneReported(n: nat, started: nat, total: nat, moves: seq<Move>, s: State)
    requires 1 <= n && started <= n && total >= 1 && IsRun(n, started, total, moves, s)
    ensures s.res == NoErr <==> forall i :: 0 <= i < |moves| ==> PcAt(n, started, total, moves, i) != SetErr
    decreases |moves|
  {
    hide IsRun, Enabled, Act, Signal;
    RunPlays(n, started, total, moves, s);
    if moves != [] {
      var m, before := moves[|moves| - 1], moves[..|moves| - 1];
      var s0 := Play(n, started, total, before);
      NoneReported(n, started, total, before, s0);
      ReportingHas(n, started, total, before, s0, m.thread);
      assert PcAt(n, started, total, moves, |before|) == s0.th[m.thread].pc;
      forall i | 0 <= i < |before|
        ensures PcAt(n, started, total, moves, i) == PcAt(n, started, total, before, i)
      {
        assert before[..i] == moves[..i];
      }
    }
  }

  lemma ReportingHas(n: nat, started: nat, total: nat, moves: seq<Move>, s: State, q: nat)
    requires 1 <= n && started <= n && total >= 1 && IsRun(n, started, total, moves, s) && |s.th| == n
    requires Enabled(s, q)
    ensures s.th[q].pc == SetErr ==> s.th[q].err != NoErr && (s.th[q].err == FailErr ==> s.res != NoErr)
  {
    hide Inv, IsRun, Link;
    var a := RunKeeps(n, started, total, moves, s);
    InvSound(s, a, total, started, q);
    hide Sound;
  }

  // Main result: the error kept is that of the thread which reported one first, and it names the call
  // of that thread which failed; if none has been reported, none is kept.
  lemma {:induction false} ErrorNamesCall(n: nat, started: nat, total: nat, moves: seq<Move>, s: State)
      returns (j: nat, k: nat)
    requires 1 <= n && started <= n && total >= 1 && IsRun(n, started, total, moves, s) && s.res != NoErr
    ensures k < |moves| && PcAt(n, started, total, moves, k) == SetErr
    ensures forall i :: 0 <= i < k ==> PcAt(n, started, total, moves, i) != SetErr
    ensures j < k && moves[j].thread == moves[k].thread && !moves[j].ok
    ensures forall i :: j < i < k ==> moves[i].thread != moves[j].thread
    ensures PcAt(n, started, total, moves, j) == Read ==> s.res == ReadErr
    ensures PcAt(n, started, total, moves, j) == Code ==> s.res == CodeErr
    ensures PcAt(n, started, total, moves, j) == Write ==> s.res == WriteErr
    ensures PcAt(n, started, total, moves, j) in {Read, Code, Write}
    decreases |moves|
  {
    hide IsRun, Enabled, Act, Signal;
    RunPlays(n, started, total, moves, s);
    var m, before := moves[|moves| - 1], moves[..|moves| - 1];
    var s0 := Play(n, started, total, before);
    forall i | 0 <= i < |before|
      ensures PcAt(n, started, total, moves, i) == PcAt(n, started, total, before, i)
    {
      assert before[..i] == moves[..i];
    }
    if s0.res == NoErr {
      NoneReported(n, started, total, before, s0);
      ReportingHas(n, started, total, before, s0, m.thread);
      k := |before|;
      j := ErrorOrigin(n, started, total, before, s0, m.thread);
      FailedEarlier(n, started, total, moves, m.thread, CallOf(s.res), j, k, k);
    } else {
      j, k := ErrorNamesCall(n, started, total, before, s0);
    }
  }

  // So if no call but reading ever fails, nothing but a read error is reported, and so for the others.
  lemma OnlyTheseFail(n: nat, started: nat, total: nat, moves: seq<Move>, s: State, pc: Pc)
    requires 1 <= n && started <= n && total >= 1 && IsRun(n, started, total, moves, s)
    requires pc == Read || pc == Code || pc == Write
    requires forall j :: 0 <= j < |moves| && PcAt(n, started, total, moves, j) in {Read, Code, Write} - {pc} ==>
      moves[j].ok
    ensures s.res == NoErr || s.res == if pc == Read then ReadErr else if pc == Code then CodeErr else WriteErr
  {
    if s.res != NoErr {
      hide IsRun, PcAt;
      var j, k := ErrorNamesCall(n, started, total, moves, s);
    }
  }

  lemma {:induction false} FailureStays(n: nat, started: nat, total: nat, moves: seq<Move>, s: State, j: nat)
      returns (q: nat)
    requires 1 <= n && started <= n && IsRun(n, started, total, moves, s) && |s.th| == n
    requires j < |moves| && !moves[j].ok && PcAt(n, started, total, moves, j) in {Read, Code, Write}
    ensures q < n && s.th[q].err != NoErr
    decreases |moves|
  {
    hide IsRun, Enabled, Act, Signal;
    RunPlays(n, started, total, moves, s);
    var m, before := moves[|moves| - 1], moves[..|moves| - 1];
    var s0 := Play(n, started, total, before);
    if j == |before| {
      q := m.thread;
    } else {
      assert before[..j] == moves[..j];
      q := FailureStays(n, started, total, before, s0, j);
    }
    StepShows(s0, total, m.thread, m.ok, q);
    ErrStays(s0.th[q], s0.pos, total, m.ok);
  }

  lemma ErrStays(t: Thread, pos: nat, total: nat, ok: bool)
    ensures t.err != NoErr ==> Act(t, pos, total, ok).err != NoErr
    ensures t.pc in {Read, Code, Write} && !ok ==> Act(t, pos, total, ok).err != NoErr
  {}

  // Main result: when all have finished, no error is reported exactly if no call has failed.
  lemma NothingHidden(n: nat, started: nat, total: nat, moves: seq<Move>, s: State)
    requires 1 <= n && started <= n && total >= 1 && IsRun(n, started, total, moves, s) && Stuck(s)
    ensures s.res == NoErr <==>
      forall j :: 0 <= j < |moves| && PcAt(n, started, total, moves, j) in {Read, Code, Write} ==> moves[j].ok
  {
    hide IsRun, PcAt, Inv, Link;
    var a := RunKeeps(n, started, total, moves, s);
    NoDeadlock(n, started, total, moves, s);
    if s.res != NoErr {
      var j, k := ErrorNamesCall(n, started, total, moves, s);
    }
    forall j | 0 <= j < |moves| && PcAt(n, started, total, moves, j) in {Read, Code, Write} && !moves[j].ok
      ensures s.res != NoErr
    {
      var q := FailureStays(n, started, total, moves, s, j);
      InvSound(s, a, total, started, q);
    }
  }
}
