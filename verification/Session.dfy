/** The bookkeeping of a session: for every thread the native calls and callbacks that are open, and whether
    the session had to attach the thread to the Java virtual machine. */
module Session {

  import opened RangeCoder

  // An environment belongs to one thread. Attaching a thread gives it a new one each time.
  datatype Env = Own(thread: nat) | Attached(thread: nat, serial: nat)

  datatype Event = Attach(thread: nat) | Detach(thread: nat)

  datatype NativeContext = NativeContext(id: nat, env: Env)

  // The newest native context comes first.
  datatype ThreadContext =
    ThreadContext(env: Option<Env>, callbacks: int, wasAttached: bool, native: seq<NativeContext>)

  const EMPTY := ThreadContext(None, 0, false, [])

  // What all threads share: the map, the count of attached threads, and what the virtual machine has seen.
  datatype State = State(contexts: map<nat, ThreadContext>, attached: int, events: seq<Event>)

  // The events of one thread.
  function Mine(events: seq<Event>, t: nat): (r: seq<Event>)
    ensures |r| <= |events|
  {
    if events == [] then [] else
      var last := events[|events| - 1];
      var r := Mine(events[..|events| - 1], t);
      if last.thread == t then r + [last] else r
  }

  lemma MineNext(events: seq<Event>, e: Event, t: nat)
    ensures Mine(events + [e], t) == if e.thread == t then Mine(events, t) + [e] else Mine(events, t)
  {
    assert (events + [e])[..|events|] == events;
  }

  // ----- What the operations do --------------------------------------------------------------

  // A look-up makes an entry if there is none.
  function Looked(s: State, t: nat): State {
    if t in s.contexts then s else s.(contexts := s.contexts[t := EMPTY])
  }

  function Registered(s: State, t: nat, n: NativeContext): State
    requires t in s.contexts
  {
    var c := s.contexts[t];
    s.(contexts := s.contexts[t := c.(native := [n] + c.native)])
  }

  function Unregistered(s: State, t: nat): State
    requires t in s.contexts && s.contexts[t].native != []
  {
    var c := s.contexts[t].(native := s.contexts[t].native[1..]);
    if c.native == [] && c.callbacks == 0 then s.(contexts := s.contexts - {t})
    else s.(contexts := s.contexts[t := c])
  }

  function WithThread(s: State, t: nat): State
    requires t in s.contexts
  {
    var c := s.contexts[t];
    if c.native == [] && c.env.None? then
      var events := s.events + [Attach(t)];
      var env := Attached(t, |Mine(events, t)|);
      State(s.contexts[t := c.(env := Some(env), wasAttached := true)], s.attached + 1, events)
    else s
  }

  // With the environment that the callback is to use.
  function Begun(s: State, t: nat): (State, Env)
    requires t in s.contexts
  {
    var s1 := WithThread(s, t);
    var c := s1.contexts[t];
    (s1.(contexts := s1.contexts[t := c.(callbacks := c.callbacks + 1)]),
     if c.env.Some? then c.env.value else c.native[0].env)
  }

  function Ended(s: State, t: nat): State
    requires t in s.contexts
  {
    var c := s.contexts[t].(callbacks := s.contexts[t].callbacks - 1);
    if c.callbacks == 0 && c.wasAttached then
      State(s.contexts - {t}, s.attached - 1, s.events + [Detach(t)])
    else s.(contexts := s.contexts[t := c])
  }

  // ----- The session as an object ------------------------------------------------------------

  class JavaVm {
    var events: seq<Event>

    constructor ()
      ensures events == []
    {
      events := [];
    }

    method AttachCurrentThread(t: nat) returns (env: Env)
      modifies this
      ensures events == old(events) + [Attach(t)] && env == Attached(t, |Mine(events, t)|)
    {
      events := events + [Attach(t)];
      env := Attached(t, |Mine(events, t)|);
    }

    method DetachCurrentThread(t: nat)
      modifies this
      ensures events == old(events) + [Detach(t)]
    {
      events := events + [Detach(t)];
    }
  }

  class JBindingSession {
    const vm: JavaVm
    var contexts: map<nat, ThreadContext>
    var attachedThreadCount: int

    ghost function S(): State
      reads this, vm
    {
      State(contexts, attachedThreadCount, vm.events)
    }

    constructor (vm: JavaVm)
      ensures this.vm == vm && S() == State(map[], 0, vm.events)
    {
      this.vm := vm;
      contexts, attachedThreadCount := map[], 0;
    }

    method Look(t: nat)
      modifies this
      ensures S() == Looked(old(S()), t)
    {
      if t !in contexts {
        contexts := contexts[t := EMPTY];
      }
    }

    method RegisterNativeContext(t: nat, n: NativeContext)
      modifies this
      ensures S() == Registered(Looked(old(S()), t), t, n)
    {
      Look(t);
      var c := contexts[t];
      contexts := contexts[t := c.(native := [n] + c.native)];
    }

    // The context that ends has to be the newest of its thread.
    method UnregisterNativeContext(t: nat, n: NativeContext)
      requires t in contexts && contexts[t].native != [] && contexts[t].native[0] == n
      modifies this
      ensures S() == Unregistered(old(S()), t)
    {
      var c := contexts[t];
      c := c.(native := c.native[1..]);
      if c.native == [] && c.callbacks == 0 {
        contexts := contexts - {t};
      } else {
        contexts := contexts[t := c];
      }
    }

    method BeginCallback(t: nat) returns (env: Env)
      modifies this, vm
      ensures (S(), env) == Begun(Looked(old(S()), t), t)
    {
      Look(t);
      if contexts[t].native == [] && contexts[t].env.None? {
        attachedThreadCount := attachedThreadCount + 1;
        env := vm.AttachCurrentThread(t);
        contexts := contexts[t := contexts[t].(env := Some(env), wasAttached := true)];
      }
      var c := contexts[t];
      contexts := contexts[t := c.(callbacks := c.callbacks + 1)];
      env := if c.env.Some? then c.env.value else c.native[0].env;
    }

    method EndCallback(t: nat)
      requires t in contexts
      modifies this, vm
      ensures S() == Ended(old(S()), t)
    {
      var c := contexts[t];
      c := c.(callbacks := c.callbacks - 1);
      contexts := contexts[t := c];
      if c.callbacks == 0 && c.wasAttached {
        attachedThreadCount := attachedThreadCount - 1;
        vm.DetachCurrentThread(t);
        contexts := contexts - {t};
      }
    }
  }

  // ----- Threads -------------------------------------------------------------------------------

  // What is open on a thread, the innermost last.
  datatype Frame = Native(id: nat, env: Env) | Callback(env: Env)

  // Between the look-up, which is inside the critical section, and the rest, which is not.
  datatype Pc = Ready | Registering(id: nat) | Beginning

  datatype Thread = Thread(pc: Pc, frames: seq<Frame>)

  datatype World = World(s: State, th: seq<Thread>)

  datatype Move = Enter(t: nat, id: nat) | Push(t: nat) | Leave(t: nat) | Call(t: nat) | Take(t: nat) | Back(t: nat)

  function Top(frames: seq<Frame>): Frame
    requires frames != []
  {
    frames[|frames| - 1]
  }

  function Below(frames: seq<Frame>): seq<Frame>
    requires frames != []
  {
    frames[..|frames| - 1]
  }

  // A native method is given the environment that its thread has.
  function Current(w: World, t: nat): Env
    requires t < |w.th|
  {
    if w.th[t].frames == [] then Own(t) else Top(w.th[t].frames).env
  }

  // Native contexts and callbacks are local objects, so they end in the opposite order.
  predicate Can(w: World, m: Move) {
    m.t < |w.th| && var x := w.th[m.t];
    match m
    case Enter(_, _) => x.pc == Ready
    case Push(_) => x.pc.Registering?
    case Leave(_) => x.pc == Ready && x.frames != [] && Top(x.frames).Native?
    case Call(_) => x.pc == Ready
    case Take(_) => x.pc == Beginning
    case Back(_) => x.pc == Ready && x.frames != [] && Top(x.frames).Callback?
  }

  // What the source asserts or takes for granted at a step.
  predicate Sound(w: World, m: Move)
    requires Can(w, m)
  {
    var x := w.th[m.t];
    && (m.Enter? || m.Call? || m.t in w.s.contexts)
    && match m
       case Leave(t) =>
         var c := w.s.contexts[t];
         && c.native != [] && c.native[0].id == Top(x.frames).id
         && (c.native[1..] == [] && c.callbacks == 0 ==> !c.wasAttached)
       case Take(t) =>
         var c := WithThread(w.s, t).contexts[t];
         c.env.Some? || c.native != []
       case Back(t) =>
         var c := w.s.contexts[t];
         c.callbacks > 0 && (c.callbacks == 1 && c.wasAttached ==> c.native == [])
       case _ => true
  }

  // Nothing is said of a step that is not sound; there is none, as is shown below.
  function Step(w: World, m: Move): World
    requires Can(w, m)
  {
    var t := m.t;
    var x := w.th[t];
    if !Sound(w, m) then w else
      match m
      case Enter(_, id) => World(Looked(w.s, t), w.th[t := x.(pc := Registering(id))])
      case Push(_) =>
        var env := Current(w, t);
        World(Registered(w.s, t, NativeContext(x.pc.id, env)),
              w.th[t := Thread(Ready, x.frames + [Native(x.pc.id, env)])])
      case Leave(_) => World(Unregistered(w.s, t), w.th[t := x.(frames := Below(x.frames))])
      case Call(_) => World(Looked(w.s, t), w.th[t := x.(pc := Beginning)])
      case Take(_) =>
        var (s, env) := Begun(w.s, t);
        World(s, w.th[t := Thread(Ready, x.frames + [Callback(env)])])
      case Back(_) => World(Ended(w.s, t), w.th[t := x.(frames := Below(x.frames))])
  }

  function Idle(n: nat): World {
    World(State(map[], 0, []), seq(n, _ => Thread(Ready, [])))
  }

  ghost predicate IsRun(n: nat, moves: seq<Move>, w: World)
    decreases |moves|
  {
    if moves == [] then w == Idle(n)
    else
      var m := moves[|moves| - 1];
      exists v :: IsRun(n, moves[..|moves| - 1], v) && Can(v, m) && w == Step(v, m)
  }

  // ----- The invariant -------------------------------------------------------------------------

  function Natives(frames: seq<Frame>): seq<NativeContext> {
    if frames == [] then [] else
      var r := Natives(Below(frames));
      if Top(frames).Native? then [NativeContext(Top(frames).id, Top(frames).env)] + r else r
  }

  function Callbacks(frames: seq<Frame>): nat {
    if frames == [] then 0 else Callbacks(Below(frames)) + if Top(frames).Callback? then 1 else 0
  }

  // A thread has to be attached when the first thing on it is a callback.
  predicate ByCallback(frames: seq<Frame>) {
    frames != [] && frames[0].Callback?
  }

  lemma {:induction false} BottomStays(frames: seq<Frame>)
    requires frames != []
    ensures frames[0].Callback? ==> Callbacks(frames) > 0
    ensures frames[0].Native? ==> Natives(frames) != []
    ensures |frames| == 1 && frames[0].Callback? ==> Natives(frames) == [] && Callbacks(frames) == 1
    ensures |frames| == 1 && frames[0].Native? ==> |Natives(frames)| == 1 && Callbacks(frames) == 0
  {
    if |frames| > 1 { BottomStays(Below(frames)); }
  }

  // Events of one thread take turns.
  predicate Paired(events: seq<Event>, t: nat) {
    forall i :: 0 <= i < |events| ==> events[i] == if i % 2 == 0 then Attach(t) else Detach(t)
  }

  function Home(s: State, t: nat, frames: seq<Frame>): Env {
    if ByCallback(frames) then Attached(t, |Mine(s.events, t)|) else Own(t)
  }

  predicate AllUse(frames: seq<Frame>, env: Env) {
    forall f :: f in frames ==> f.env == env
  }

  predicate Describes(c: ThreadContext, frames: seq<Frame>, home: Env) {
    && c.native == Natives(frames) && c.callbacks == Callbacks(frames)
    && c.wasAttached == ByCallback(frames)
    && c.env == if ByCallback(frames) then Some(home) else None
  }

  predicate ThreadOk(s: State, t: nat, x: Thread) {
    && AllUse(x.frames, Home(s, t, x.frames))
    && Paired(Mine(s.events, t), t) && (|Mine(s.events, t)| % 2 == 1 <==> ByCallback(x.frames))
    && (t in s.contexts <==> x.frames != [] || x.pc != Ready)
    && (t in s.contexts ==> Describes(s.contexts[t], x.frames, Home(s, t, x.frames)))
  }

  // One for the thread, if what is open on it has a callback at the bottom.
  function One(x: Thread): nat {
    if ByCallback(x.frames) then 1 else 0
  }

  function NumAttached(th: seq<Thread>): nat {
    if th == [] then 0 else NumAttached(th[..|th| - 1]) + One(th[|th| - 1])
  }

  predicate Inv(w: World) {
    && (forall t :: 0 <= t < |w.th| ==> ThreadOk(w.s, t, w.th[t]))
    && (forall t :: t in w.s.contexts ==> t < |w.th|)
    && w.s.attached == NumAttached(w.th)
  }

  lemma {:induction false} NumAttachedUpdate(th: seq<Thread>, t: nat, x: Thread)
    requires t < |th|
    ensures NumAttached(th[t := x]) == NumAttached(th) - One(th[t]) + One(x)
    decreases |th|
  {
    var m := |th| - 1;
    if t == m {
      assert th[t := x][..m] == th[..m];
    } else {
      NumAttachedUpdate(th[..m], t, x);
      assert th[t := x][..m] == th[..m][t := x];
    }
  }

  // ----- Steps keep it -------------------------------------------------------------------------

  lemma AlwaysSound(w: World, m: Move)
    requires Inv(w) && Can(w, m)
    ensures Sound(w, m)
  {
    var x := w.th[m.t];
    assert ThreadOk(w.s, m.t, x);
    if x.frames != [] {
      BottomStays(x.frames);
      if |x.frames| > 1 {
        BottomStays(Below(x.frames));
      }
    }
  }

  // What a step does is not seen by the other threads.
  lemma OthersKeep(s: State, s': State, u: nat, x: Thread)
    requires ThreadOk(s, u, x) && Mine(s'.events, u) == Mine(s.events, u)
    requires u in s'.contexts <==> u in s.contexts
    requires u in s.contexts ==> s'.contexts[u] == s.contexts[u]
    ensures ThreadOk(s', u, x)
  {}

  lemma StepIsLocal(w: World, m: Move, u: nat)
    requires Can(w, m) && u != m.t
    ensures var s := Step(w, m).s;
      && Mine(s.events, u) == Mine(w.s.events, u) && (u in s.contexts <==> u in w.s.contexts)
      && (u in s.contexts ==> s.contexts[u] == w.s.contexts[u])
  {
    MineNext(w.s.events, Attach(m.t), u);
    MineNext(w.s.events, Detach(m.t), u);
  }

  lemma LookedKeeps(s: State, t: nat, x: Thread, pc: Pc)
    requires ThreadOk(s, t, x) && pc != Ready
    ensures ThreadOk(Looked(s, t), t, x.(pc := pc))
  {}

  lemma PushKeeps(w: World, t: nat)
    requires Inv(w) && Can(w, Push(t)) && Sound(w, Push(t))
    ensures ThreadOk(Step(w, Push(t)).s, t, Step(w, Push(t)).th[t])
  {
    var x := w.th[t];
    assert ThreadOk(w.s, t, x);
    var f := Native(x.pc.id, Current(w, t));
    FramesGrow(x.frames, f);
    assert Current(w, t) == Home(w.s, t, x.frames + [f]);
  }

  lemma FramesGrow(frames: seq<Frame>, f: Frame)
    ensures Below(frames + [f]) == frames && Top(frames + [f]) == f
    ensures ByCallback(frames + [f]) == if frames == [] then f.Callback? else ByCallback(frames)
    ensures Callbacks(frames + [f]) == Callbacks(frames) + if f.Callback? then 1 else 0
    ensures Natives(frames + [f]) ==
            if f.Native? then [NativeContext(f.id, f.env)] + Natives(frames) else Natives(frames)
  {}

  // A callback inside something else uses what that uses.
  lemma InnerEnv(c: ThreadContext, frames: seq<Frame>, home: Env)
    requires frames != [] && Describes(c, frames, home) && AllUse(frames, home)
    ensures c.native == [] ==> c.env.Some?
    ensures (if c.env.Some? then c.env.value else c.native[0].env) == home
  {
    BottomStays(frames);
    NewestEnv(frames);
  }

  lemma DescribesMore(c: ThreadContext, frames: seq<Frame>, home: Env)
    requires frames != [] && Describes(c, frames, home) && AllUse(frames, home)
    ensures Describes(c.(callbacks := c.callbacks + 1), frames + [Callback(home)], home)
    ensures AllUse(frames + [Callback(home)], home)
  {
    FramesGrow(frames, Callback(home));
  }

  lemma TakeInner(w: World, t: nat)
    requires Inv(w) && Can(w, Take(t)) && Sound(w, Take(t)) && w.th[t].frames != []
    ensures var w' := Step(w, Take(t));
      && ThreadOk(w'.s, t, w'.th[t])
      && w'.s.attached == w.s.attached && ByCallback(w'.th[t].frames) == ByCallback(w.th[t].frames)
  {
    hide AllUse, Describes, Paired, Mine, Natives, Callbacks;
    var x := w.th[t];
    assert ThreadOk(w.s, t, x);
    var home := Home(w.s, t, x.frames);
    InnerEnv(w.s.contexts[t], x.frames, home);
    DescribesMore(w.s.contexts[t], x.frames, home);
  }

  // The first thing on a thread: it is attached.
  lemma TakeFirst(w: World, t: nat)
    requires Inv(w) && Can(w, Take(t)) && Sound(w, Take(t)) && w.th[t].frames == []
    ensures var w' := Step(w, Take(t));
      && ThreadOk(w'.s, t, w'.th[t])
      && w'.s.attached == w.s.attached + 1 && ByCallback(w'.th[t].frames)
  {
    hide Paired, Mine;
    var x := w.th[t];
    assert ThreadOk(w.s, t, x);
    assert w.s.contexts[t] == EMPTY;
    var e := Mine(w.s.events, t);
    MineNext(w.s.events, Attach(t), t);
    PairedNext(e, t, Attach(t));
    var home := Attached(t, |e| + 1);
    FramesGrow([], Callback(home));
    assert [] + [Callback(home)] == [Callback(home)];
  }

  lemma PairedNext(e: seq<Event>, t: nat, v: Event)
    requires Paired(e, t) && v == if |e| % 2 == 0 then Attach(t) else Detach(t)
    ensures Paired(e + [v], t)
  {}

  lemma TakeKeeps(w: World, t: nat)
    requires Inv(w) && Can(w, Take(t)) && Sound(w, Take(t))
    ensures var w' := Step(w, Take(t));
      && ThreadOk(w'.s, t, w'.th[t])
      && w'.s.attached == w.s.attached - One(w.th[t]) + One(w'.th[t])
  {
    hide ThreadOk, Step;
    if w.th[t].frames == [] { TakeFirst(w, t); } else { TakeInner(w, t); }
  }

  // The context that a callback takes its environment from.
  lemma {:induction false} NewestEnv(frames: seq<Frame>)
    ensures forall n :: n in Natives(frames) ==> Native(n.id, n.env) in frames
  {
    if frames != [] { NewestEnv(Below(frames)); }
  }

  lemma LeaveKeeps(w: World, t: nat)
    requires Inv(w) && Can(w, Leave(t)) && Sound(w, Leave(t))
    ensures ThreadOk(Step(w, Leave(t)).s, t, Step(w, Leave(t)).th[t])
  {
    var x := w.th[t];
    assert ThreadOk(w.s, t, x);
    BottomStays(x.frames);
    if |x.frames| > 1 { BottomStays(Below(x.frames)); }
  }

  // What is left when the innermost thing ends.
  lemma DescribesLess(c: ThreadContext, frames: seq<Frame>, home: Env)
    requires |frames| > 1 && Describes(c, frames, home) && AllUse(frames, home) && Top(frames).Callback?
    ensures Describes(c.(callbacks := c.callbacks - 1), Below(frames), home) && AllUse(Below(frames), home)
    ensures ByCallback(Below(frames)) == ByCallback(frames) && (c.callbacks == 1 ==> !c.wasAttached)
  {
    BottomStays(Below(frames));
  }

  lemma BackInner(w: World, t: nat)
    requires Inv(w) && Can(w, Back(t)) && Sound(w, Back(t)) && |w.th[t].frames| > 1
    ensures var w' := Step(w, Back(t));
      && ThreadOk(w'.s, t, w'.th[t])
      && w'.s.attached == w.s.attached && ByCallback(w'.th[t].frames) == ByCallback(w.th[t].frames)
  {
    hide AllUse, Describes, Paired, Mine, Natives, Callbacks;
    var x := w.th[t];
    assert ThreadOk(w.s, t, x);
    DescribesLess(w.s.contexts[t], x.frames, Home(w.s, t, x.frames));
  }

  // The last thing on an attached thread: it is detached.
  lemma BackLast(w: World, t: nat)
    requires Inv(w) && Can(w, Back(t)) && Sound(w, Back(t)) && |w.th[t].frames| == 1
    ensures var w' := Step(w, Back(t));
      && ThreadOk(w'.s, t, w'.th[t])
      && w'.s.attached == w.s.attached - 1 && ByCallback(w.th[t].frames) && w'.th[t].frames == []
  {
    hide Paired, Mine;
    var x := w.th[t];
    assert ThreadOk(w.s, t, x);
    BottomStays(x.frames);
    var e := Mine(w.s.events, t);
    MineNext(w.s.events, Detach(t), t);
    PairedNext(e, t, Detach(t));
  }

  lemma BackKeeps(w: World, t: nat)
    requires Inv(w) && Can(w, Back(t)) && Sound(w, Back(t))
    ensures var w' := Step(w, Back(t));
      && ThreadOk(w'.s, t, w'.th[t])
      && w'.s.attached == w.s.attached - One(w.th[t]) + One(w'.th[t])
  {
    hide ThreadOk, Step;
    if |w.th[t].frames| == 1 { BackLast(w, t); } else { BackInner(w, t); }
  }

  lemma OwnKeeps(w: World, m: Move)
    requires Inv(w) && Can(w, m) && Sound(w, m)
    ensures var w' := Step(w, m);
      && w'.th == w.th[m.t := w'.th[m.t]] && ThreadOk(w'.s, m.t, w'.th[m.t])
      && w'.s.attached == w.s.attached - One(w.th[m.t]) + One(w'.th[m.t])
  {
    hide AllUse, Describes, Paired, Mine, Natives, Callbacks;
    var t := m.t;
    assert ThreadOk(w.s, t, w.th[t]);
    match m
    case Enter(_, id) => LookedKeeps(w.s, t, w.th[t], Registering(id));
    case Call(_) => LookedKeeps(w.s, t, w.th[t], Beginning);
    case Push(_) => PushKeeps(w, t);
    case Take(_) => TakeKeeps(w, t);
    case Leave(_) => LeaveKeeps(w, t);
    case Back(_) => BackKeeps(w, t);
  }

  lemma StepKeeps(w: World, m: Move)
    requires Inv(w) && Can(w, m)
    ensures Inv(Step(w, m)) && |Step(w, m).th| == |w.th|
  {
    hide Step, Sound, ThreadOk, Can, Mine;
    AlwaysSound(w, m);
    InRange(w, m);
    var t := m.t;
    var w' := Step(w, m);
    OwnKeeps(w, m);
    forall u | 0 <= u < |w.th|
      ensures ThreadOk(w'.s, u, w'.th[u])
    {
      if u != t {
        StepIsLocal(w, m, u);
        OthersKeep(w.s, w'.s, u, w.th[u]);
      }
    }
    forall u | u in w'.s.contexts
      ensures u < |w.th|
    {
      if u != t { StepIsLocal(w, m, u); }
    }
    NumAttachedUpdate(w.th, t, w'.th[t]);
  }

  lemma InRange(w: World, m: Move)
    requires Can(w, m)
    ensures m.t < |w.th|
  {}

  lemma {:induction false} NoneAttached(th: seq<Thread>)
    requires forall t :: 0 <= t < |th| ==> th[t].frames == []
    ensures NumAttached(th) == 0
  {
    if th != [] { NoneAttached(th[..|th| - 1]); }
  }

  lemma {:induction false} RunKeeps(n: nat, moves: seq<Move>, w: World)
    requires IsRun(n, moves, w)
    ensures Inv(w) && |w.th| == n
    decreases |moves|
  {
    if moves == [] {
      NoneAttached(w.th);
    } else {
      var m := moves[|moves| - 1];
      var v :| IsRun(n, moves[..|moves| - 1], v) && Can(v, m) && w == Step(v, m);
      RunKeeps(n, moves[..|moves| - 1], v);
      StepKeeps(v, m);
    }
  }

  // ----- What it means -------------------------------------------------------------------------

  // Main result: in every interleaving of native calls and callbacks a thread has an entry exactly while
  // something is open on it or being opened, and an attached thread is inside a callback.
  lemma EntryWhileOpen(n: nat, moves: seq<Move>, w: World, t: nat)
    requires IsRun(n, moves, w) && t < n
    ensures |w.th| == n && (t in w.s.contexts <==> w.th[t].frames != [] || w.th[t].pc != Ready)
    ensures t in w.s.contexts ==> (w.s.contexts[t].wasAttached <==> ByCallback(w.th[t].frames))
    ensures t in w.s.contexts && w.s.contexts[t].wasAttached ==> w.s.contexts[t].callbacks > 0
  {
    RunKeeps(n, moves, w);
    assert ThreadOk(w.s, t, w.th[t]);
    if w.th[t].frames != [] { BottomStays(w.th[t].frames); }
  }

  // Main result: a thread is attached and detached in turns, each time by itself, and it is attached exactly
  // while a callback that no native call surrounds is open on it.
  lemma AttachedInTurns(n: nat, moves: seq<Move>, w: World, t: nat)
    requires IsRun(n, moves, w) && t < n
    ensures |w.th| == n && Paired(Mine(w.s.events, t), t)
    ensures |Mine(w.s.events, t)| % 2 == 1 <==> ByCallback(w.th[t].frames)
    ensures w.s.attached == NumAttached(w.th)
  {
    RunKeeps(n, moves, w);
    assert ThreadOk(w.s, t, w.th[t]);
  }

  // Main result: whatever is open on a thread works with one environment, that of the thread itself or that of
  // its present attachment, never with that of another thread or one given back.
  lemma EnvironmentIsOwn(n: nat, moves: seq<Move>, w: World, t: nat, k: nat)
    requires IsRun(n, moves, w) && t < n && |w.th| == n && k < |w.th[t].frames|
    ensures w.th[t].frames[k].env == Home(w.s, t, w.th[t].frames)
  {
    RunKeeps(n, moves, w);
    assert ThreadOk(w.s, t, w.th[t]);
  }

  // Main result: no step breaks what the source asserts: the context that ends is the newest one, the last
  // native call leaves no attached thread behind, a thread is detached after its native calls have ended, and a
  // callback finds an environment.
  lemma AssertionsHold(n: nat, moves: seq<Move>, w: World, m: Move)
    requires IsRun(n, moves, w) && Can(w, m)
    ensures Sound(w, m)
  {
    RunKeeps(n, moves, w);
    AlwaysSound(w, m);
  }

  // Main result: when everything has ended on all threads, the map is empty, every attached thread has been
  // detached, and the count is back to 0.
  lemma AllUnwound(n: nat, moves: seq<Move>, w: World)
    requires IsRun(n, moves, w) && forall x :: x in w.th ==> x == Thread(Ready, [])
    ensures w.s.contexts == map[] && w.s.attached == 0
    ensures forall t: nat :: t < n ==> Paired(Mine(w.s.events, t), t) && |Mine(w.s.events, t)| % 2 == 0
  {
    RunKeeps(n, moves, w);
    forall t | 0 <= t < |w.th|
      ensures w.th[t].frames == []
    {
      assert w.th[t] in w.th;
    }
    NoneAttached(w.th);
    forall t: nat | t < n
      ensures t !in w.s.contexts && Paired(Mine(w.s.events, t), t) && |Mine(w.s.events, t)| % 2 == 0
    {
      assert w.th[t] in w.th;
      assert ThreadOk(w.s, t, w.th[t]);
    }
    assert forall t :: t in w.s.contexts ==> t < n;
  }

  // The order of ending matters: a callback that outlives the native call around it leaves its entry behind.
  lemma OutlivedLeavesEntry(t: nat, id: nat)
    ensures var s1 := Registered(Looked(State(map[], 0, []), t), t, NativeContext(id, Own(t)));
      var s2 := Begun(Looked(s1, t), t).0;
      t in s2.contexts && s2.contexts[t].native != [] &&
      Ended(Unregistered(s2, t), t).contexts == map[t := EMPTY]
  {
    var s1 := Registered(Looked(State(map[], 0, []), t), t, NativeContext(id, Own(t)));
    var s2 := Begun(Looked(s1, t), t).0;
    assert s2.contexts[t] == ThreadContext(None, 1, false, [NativeContext(id, Own(t))]);
  }
}
