/** The handshake between the callers of BlockConnectedSync and a monitor's BlockConnectedHandler, the same in
    stakedb, blockdata and hcsqlite, as a state machine over the steps of all goroutines. */
module Handshake {
  import opened Options
  import opened StakeChain

  /** What handling a block comes to. stakedb panics without a release, hcsqlite releases and then panics. */
  datatype Path = Releases | Panics | ReleasesThenPanics

  /** The buffer of blockChan and the paths that the handler has. */
  datatype Monitor = Monitor(buffer: nat, paths: set<Path>)

  const STAKEDB := Monitor(0, {Releases, Panics})
  const BLOCKDATA := Monitor(64, {Releases})
  const HCSQLITE := Monitor(64, {Releases, ReleasesThenPanics})

  /** Where a caller is: not calling, at syncConnect.Lock, at the send on ConnectingLock, at the send on
      blockChan, at the receive from DoneConnecting, at the deferred Unlock. */
  datatype Caller =
    | Idle
    | AtLock(hash: Block)
    | AtToken(hash: Block)
    | AtSend(hash: Block)
    | AtDone(hash: Block)
    | AtUnlock(hash: Block)

  /** Where the handler is: at the outer select, at the select on ConnectingLock, handling a block with or
      without a token taken, at the send on DoneConnecting, or about to panic after it. */
  datatype Handler =
    | Listening
    | AtSelect(hash: Block)
    | Handling(hash: Block, token: bool)
    | AtRelease(hash: Block, path: Path)
    | Doomed

  /** finished: blocks whose handling is complete; released and returned: the same for releases and for calls
      that returned, each in order. */
  datatype State = State(
    callers: seq<Caller>, mutex: Option<nat>, tokens: nat, queue: seq<Block>, handler: Handler,
    finished: seq<Block>, released: seq<Block>, returned: seq<Block>, crashed: bool)

  datatype Step =
    | Call(k: nat, hash: Block)
    | Lock(k: nat)
    | SendToken(k: nat)
    | SendHash(k: nat)
    | Receive
    | TakeToken
    | Finish(path: Path)
    | Release(k: nat)
    | Die
    | Unlock(k: nat)

  predicate Enabled(m: Monitor, s: State, a: Step) {
    && !s.crashed
    && match a
       case Call(k, _) => k < |s.callers| && s.callers[k].Idle?
       case Lock(k) => k < |s.callers| && s.callers[k].AtLock? && s.mutex.None?
       case SendToken(k) => k < |s.callers| && s.callers[k].AtToken? && s.tokens < 1
       case SendHash(k) =>
         k < |s.callers| && s.callers[k].AtSend? && (if m.buffer == 0 then s.handler.Listening? else |s.queue| < m.buffer)
       case Receive => s.handler.Listening? && s.queue != []
       case TakeToken => s.handler.AtSelect?
       case Finish(path) => s.handler.Handling? && path in m.paths
       case Release(k) => k < |s.callers| && s.callers[k].AtDone? && s.handler.AtRelease?
       case Die => s.handler.Doomed?
       case Unlock(k) => k < |s.callers| && s.callers[k].AtUnlock?
  }

  function Next(m: Monitor, s: State, a: Step): State
    requires Enabled(m, s, a)
  {
    match a
    case Call(k, h) => s.(callers := s.callers[k := AtLock(h)])
    case Lock(k) => s.(callers := s.callers[k := AtToken(s.callers[k].hash)], mutex := Some(k))
    case SendToken(k) => s.(callers := s.callers[k := AtSend(s.callers[k].hash)], tokens := s.tokens + 1)
    case SendHash(k) =>
      var h := s.callers[k].hash;
      var sent := s.(callers := s.callers[k := AtDone(h)]);
      if m.buffer == 0 then sent.(handler := AtSelect(h)) else sent.(queue := s.queue + [h])
    case Receive => s.(handler := AtSelect(s.queue[0]), queue := s.queue[1..])
    case TakeToken =>
      if s.tokens > 0 then s.(handler := Handling(s.handler.hash, true), tokens := s.tokens - 1)
      else s.(handler := Handling(s.handler.hash, false))
    case Finish(path) =>
      var h := s.handler.hash;
      if path.Panics? then s.(crashed := true)
      else if s.handler.token then s.(handler := AtRelease(h, path), finished := s.finished + [h])
      else s.(handler := if path.Releases? then Listening else Doomed, finished := s.finished + [h])
    case Release(k) =>
      s.(callers := s.callers[k := AtUnlock(s.callers[k].hash)], released := s.released + [s.handler.hash],
         handler := if s.handler.path.Releases? then Listening else Doomed)
    case Die => s.(crashed := true)
    case Unlock(k) => s.(callers := s.callers[k := Idle], mutex := None, returned := s.returned + [s.callers[k].hash])
  }

  ghost predicate Initial(s: State) {
    && (forall k :: 0 <= k < |s.callers| ==> s.callers[k].Idle?)
    && s.mutex.None? && s.tokens == 0 && s.queue == [] && s.handler.Listening? && !s.crashed
    && s.finished == [] && s.released == [] && s.returned == []
  }

  // ---------------------------------------------------------------------------------------------
  // The invariant

  predicate Outside(c: Caller) {
    c.Idle? || c.AtLock?
  }

  /** No block between a caller and the handler. */
  ghost predicate Quiet(s: State) {
    s.tokens == 0 && s.queue == [] && (s.handler.Listening? || s.handler.Doomed?) && s.finished == s.released
  }

  /** The states that go with a caller waiting for its block h. */
  ghost predicate InFlight(s: State, h: Block) {
    || (s.tokens == 1 && s.queue == [h] && (s.handler.Listening? || s.handler.Doomed?) && s.finished == s.released)
    || (s.tokens == 1 && s.queue == [] && s.handler == AtSelect(h) && s.finished == s.released)
    || (s.tokens == 0 && s.queue == [] && s.handler == Handling(h, true) && s.finished == s.released)
    || (s.tokens == 0 && s.queue == [] && s.handler.AtRelease? && s.handler.hash == h && s.finished == s.released + [h])
  }

  ghost predicate Stage(s: State, c: Caller) {
    match c
    case AtToken(_) => Quiet(s) && s.released == s.returned
    case AtSend(_) => Quiet(s.(tokens := 0)) && s.tokens == 1 && s.released == s.returned
    case AtDone(h) => InFlight(s, h) && s.released == s.returned
    case AtUnlock(h) => Quiet(s) && s.released == s.returned + [h]
    case _ => false
  }

  /** One caller holds the mutex, and everything else is as its stage demands. */
  ghost predicate Inv(s: State) {
    && (forall k: nat :: k < |s.callers| ==> (Outside(s.callers[k]) <==> s.mutex != Some(k)))
    && match s.mutex
       case None => Quiet(s) && s.released == s.returned
       case Some(k) => k < |s.callers| && Stage(s, s.callers[k])
  }

  lemma InvInitial(s: State)
    requires Initial(s)
    ensures Inv(s)
  {
  }

  lemma InvStep(m: Monitor, s: State, a: Step)
    requires Inv(s) && Enabled(m, s, a)
    ensures Inv(Next(m, s, a))
  {
  }

  // ---------------------------------------------------------------------------------------------
  // What holds in every interleaving

  ghost predicate AllEnabled(m: Monitor, s: State, steps: seq<Step>)
    decreases |steps|
  {
    steps != [] ==> Enabled(m, s, steps[0]) && AllEnabled(m, Next(m, s, steps[0]), steps[1..])
  }

  function Run(m: Monitor, s: State, steps: seq<Step>): State
    requires AllEnabled(m, s, steps)
    decreases |steps|
  {
    if steps == [] then s else Run(m, Next(m, s, steps[0]), steps[1..])
  }

  lemma {:induction false} InvRun(m: Monitor, s: State, steps: seq<Step>)
    requires Inv(s) && AllEnabled(m, s, steps)
    ensures Inv(Run(m, s, steps))
    decreases |steps|
  {
    hide Inv, Enabled, Next;
    if steps != [] {
      InvStep(m, s, steps[0]);
      InvRun(m, Next(m, s, steps[0]), steps[1..]);
    }
  }

  /** The blocks between a caller and the handler: sent and not yet received, or being handled. */
  function InFlightCount(s: State): nat {
    |s.queue| + if s.handler.AtSelect? || s.handler.Handling? || s.handler.AtRelease? then 1 else 0
  }

  /** After any interleaving of any callers with the handler: at most one block is in flight; a handler that
      has a block finds the token; releases and returns follow the finished blocks, in order and one each;
      and a call about to return has had its own block finished, last. */
  lemma HandshakeIsSafe(m: Monitor, s: State, steps: seq<Step>)
    requires Initial(s) && AllEnabled(m, s, steps)
    ensures var t := Run(m, s, steps);
      && InFlightCount(t) <= 1
      && (t.handler.AtSelect? ==> t.tokens == 1)
      && (t.handler.Handling? ==> t.handler.token)
      && t.returned <= t.released <= t.finished && |t.finished| <= |t.returned| + 1
      && (forall k :: 0 <= k < |t.callers| && t.callers[k].AtUnlock? ==>
        t.finished == t.released == t.returned + [t.callers[k].hash])
  {
    InvInitial(s);
    InvRun(m, s, steps);
  }

  /** A monitor whose handling neither panics nor dies stays alive. */
  lemma {:induction false} NoPanicPaths(m: Monitor, s: State, steps: seq<Step>)
    requires m.paths <= {Releases} && AllEnabled(m, s, steps)
    requires !s.crashed && !s.handler.Doomed? && (s.handler.AtRelease? ==> s.handler.path.Releases?)
    ensures !Run(m, s, steps).crashed
    decreases |steps|
  {
    if steps != [] {
      NoPanicPaths(m, Next(m, s, steps[0]), steps[1..]);
    }
  }

  /** How the process may have died: in the handling of a block that was never finished, or after the release of
      the block that was finished last. */
  ghost predicate Died(m: Monitor, s: State) {
    && (s.handler.AtRelease? ==> s.handler.path in m.paths && !s.handler.path.Panics?)
    && (s.handler.Doomed? ==> ReleasesThenPanics in m.paths && s.finished == s.released)
    && (s.crashed && Panics !in m.paths ==> s.handler.Doomed?)
    && (s.crashed && ReleasesThenPanics !in m.paths ==>
      && Panics in m.paths && s.handler.Handling? && s.finished == s.released
      && exists k :: 0 <= k < |s.callers| && s.callers[k] == AtDone(s.handler.hash))
  }

  lemma DiedStep(m: Monitor, s: State, a: Step)
    requires Inv(s) && Died(m, s) && Enabled(m, s, a)
    ensures Died(m, Next(m, s, a))
  {
    if a.Finish? {
      assert s.mutex.Some? && s.callers[s.mutex.value] == AtDone(s.handler.hash);
    } else if a.Release? {
      assert s.mutex == Some(a.k) && s.finished == s.released + [s.handler.hash];
    }
  }

  lemma {:induction false} DiedRun(m: Monitor, s: State, steps: seq<Step>)
    requires Inv(s) && Died(m, s) && AllEnabled(m, s, steps)
    ensures Died(m, Run(m, s, steps))
    decreases |steps|
  {
    hide Inv, Enabled, Next, Died;
    if steps != [] {
      InvStep(m, s, steps[0]);
      DiedStep(m, s, steps[0]);
      DiedRun(m, Next(m, s, steps[0]), steps[1..]);
    }
  }

  /** The three monitors die differently: blockdata never; stakedb with the caller of the block at hand waiting
      for a release that never comes; hcsqlite only after every block that was finished was released. */
  lemma MonitorsDie(s: State, steps: seq<Step>)
    requires Initial(s)
    ensures AllEnabled(BLOCKDATA, s, steps) ==> !Run(BLOCKDATA, s, steps).crashed
    ensures AllEnabled(STAKEDB, s, steps) ==>
      var t := Run(STAKEDB, s, steps);
      t.crashed ==> t.handler.Handling? && exists k :: 0 <= k < |t.callers| && t.callers[k] == AtDone(t.handler.hash)
    ensures AllEnabled(HCSQLITE, s, steps) ==>
      var t := Run(HCSQLITE, s, steps);
      t.crashed ==> t.handler.Doomed? && t.finished == t.released
  {
    InvInitial(s);
    if AllEnabled(BLOCKDATA, s, steps) {
      NoPanicPaths(BLOCKDATA, s, steps);
    }
    if AllEnabled(STAKEDB, s, steps) {
      DiedRun(STAKEDB, s, steps);
    }
    if AllEnabled(HCSQLITE, s, steps) {
      DiedRun(HCSQLITE, s, steps);
    }
  }

  // ---------------------------------------------------------------------------------------------
  // No state is stuck, and every call returns

  /** Some step other than a new call can be taken, unless the process is dead or no call is under way. */
  lemma NeverStuck(m: Monitor, s: State, k: nat)
    requires Inv(s) && !s.crashed && m.paths != {} && k < |s.callers| && !s.callers[k].Idle?
    ensures exists a: Step :: !a.Call? && Enabled(m, s, a)
  {
    var path :| path in m.paths;
    if s.handler.Doomed? {
      assert Enabled(m, s, Die);
    } else if s.mutex.None? {
      assert Enabled(m, s, Lock(k));
    } else {
      var holder := s.mutex.value;
      match s.callers[holder]
      case AtToken(_) => assert Enabled(m, s, SendToken(holder));
      case AtSend(_) => assert Enabled(m, s, SendHash(holder));
      case AtUnlock(_) => assert Enabled(m, s, Unlock(holder));
      case AtDone(_) =>
        if s.handler.Listening? {
          assert Enabled(m, s, Receive);
        } else if s.handler.AtSelect? {
          assert Enabled(m, s, TakeToken);
        } else if s.handler.Handling? {
          assert Enabled(m, s, Finish(path));
        } else {
          assert Enabled(m, s, Release(holder));
        }
    }
  }

  function CallerWeight(c: Caller): nat {
    match c
    case Idle => 0
    case AtUnlock(_) => 10
    case AtDone(_) => 20
    case AtSend(_) => 30
    case AtToken(_) => 40
    case AtLock(_) => 50
  }

  function CallersWeight(callers: seq<Caller>): nat {
    if callers == [] then 0 else CallersWeight(callers[..|callers| - 1]) + CallerWeight(callers[|callers| - 1])
  }

  function HandlerWeight(h: Handler): nat {
    match h
    case Listening => 0
    case Doomed => 1
    case AtRelease(_, _) => 2
    case Handling(_, _) => 3
    case AtSelect(_) => 4
  }

  /** How many steps the calls under way may still take. */
  function StepsLeft(s: State): nat {
    CallersWeight(s.callers) + 5 * |s.queue| + HandlerWeight(s.handler) + if s.crashed then 0 else 1
  }

  lemma {:induction false} WeightAfter(callers: seq<Caller>, k: nat, c: Caller)
    requires k < |callers|
    ensures CallersWeight(callers[k := c]) == CallersWeight(callers) - CallerWeight(callers[k]) + CallerWeight(c)
    decreases |callers|
  {
    var n := |callers| - 1;
    if k < n {
      assert callers[k := c][..n] == callers[..n][k := c];
      WeightAfter(callers[..n], k, c);
    } else {
      assert callers[k := c][..n] == callers[..n];
    }
  }

  lemma StepWeighs(m: Monitor, s: State, a: Step)
    requires Enabled(m, s, a) && !a.Call?
    ensures StepsLeft(Next(m, s, a)) < StepsLeft(s)
  {
    hide CallersWeight;
    match a
    case Lock(k) => WeightAfter(s.callers, k, AtToken(s.callers[k].hash));
    case SendToken(k) => WeightAfter(s.callers, k, AtSend(s.callers[k].hash));
    case SendHash(k) => WeightAfter(s.callers, k, AtDone(s.callers[k].hash));
    case Release(k) => WeightAfter(s.callers, k, AtUnlock(s.callers[k].hash));
    case Unlock(k) => WeightAfter(s.callers, k, Idle);
    case _ =>
  }

  /** With no new calls the steps come to an end, however they are scheduled ... */
  lemma {:induction false} StepsRunOut(m: Monitor, s: State, steps: seq<Step>)
    requires AllEnabled(m, s, steps) && forall a <- steps :: !a.Call?
    ensures |steps| + StepsLeft(Run(m, s, steps)) <= StepsLeft(s)
    decreases |steps|
  {
    hide Enabled, Next, StepsLeft;
    if steps != [] {
      StepWeighs(m, s, steps[0]);
      StepsRunOut(m, Next(m, s, steps[0]), steps[1..]);
    }
  }

  /** ... and where they do every call has returned, unless the process died in a panic. */
  lemma EveryCallReturns(m: Monitor, s: State, steps: seq<Step>)
    requires Inv(s) && m.paths != {} && AllEnabled(m, s, steps)
    requires forall a: Step :: Enabled(m, Run(m, s, steps), a) ==> a.Call?
    ensures var t := Run(m, s, steps);
      t.crashed || ((forall k :: 0 <= k < |t.callers| ==> t.callers[k].Idle?) && t.returned == t.finished)
  {
    InvRun(m, s, steps);
    var t := Run(m, s, steps);
    if !t.crashed && exists k :: 0 <= k < |t.callers| && !t.callers[k].Idle? {
      var k :| 0 <= k < |t.callers| && !t.callers[k].Idle?;
      NeverStuck(m, t, k);
    }
  }
}
