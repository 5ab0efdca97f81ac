/**
 The connection lifecycle of the OPC UA client manager, as a machine whose steps are the stretches of
 code between two awaits.

 An asynchronous activation (a connect attempt, a disconnect, the retry loop) is a program counter; the
 environment decides which one resumes and whether what it awaited was resolved or rejected. Clients and
 sessions are numbered in the order they come into being.
 */
module ClientManager {
  import opened Wrappers

  /** Where a connect attempt is waiting. */
  datatype AttemptPc =
    | ClosingPrevious(previous: int)     // session.close() of the client being replaced
    | DisposingPrevious(previous: int)   // its disposal
    | Preparing                          // prepareClientCertificate
    | Connecting                         // client.connect
    | CreatingSession                    // client.createSession
    | DisposingRefused                   // disposal after a refused session
    | ClosingAborted                     // session.close() of an aborted attempt
    | DisposingAborted                   // disposal by an aborted attempt
    | Settled(ok: bool)                  // returned or thrown
    | Released                           // thrown after giving back everything: the aborted end

  /** One activation of `_doConnect`: its lifecycle and its local variables. */
  datatype Attempt = Attempt(life: int, client: Option<int>, session: Option<int>, pc: AttemptPc)

  /** Where a disconnect is waiting. */
  datatype DisconnectPc =
    | DisposingInFlight
    | AwaitingAttempt(attempt: int)
    | DisposingOffline
    | Terminating
    | ClosingSession
    | DisposingFinal

  datatype LoopPc = AwaitingConnect(attempt: int) | Woken(ok: bool) | Sleeping

  /** The retry loop of `reconnect`. */
  datatype Loop = Loop(life: int, pc: LoopPc)

  /** The wait for node-opcua to repair a session. */
  datatype Repair = Repair(client: int, session: int)

  datatype State = State(
    // the fields of the manager
    client: Option<int>,
    session: Option<int>,
    isConnected: bool,
    life: int,                          // the current lifecycle; all earlier ones are aborted
    timer: Option<int>,                 // the lifecycle under which the reconnect timer was armed
    promise: Option<int>,               // _connectPromise
    loop: Option<Loop>,                 // _reconnectPromise
    repair: Option<Repair>,             // _repairWait
    // the world: whether the configured certificate files can be read and a client created
    usable: bool,
    // the activations in progress
    attempts: map<int, Attempt>,
    disconnects: map<int, DisconnectPc>,
    // what has happened so far
    started: int,                       // attempts
    calls: int,                         // disconnects
    clients: int,                       // clients created
    disposed: set<int>,                 // clients marked DISPOSED
    disconnectCalls: multiset<int>,     // calls of client.disconnect()
    sessions: int,                      // sessions opened
    closed: set<int>,                   // sessions on which close() was called
    errors: int)                        // "error" events

  const INITIAL :=
    State(None, None, false, 0, None, None, None, None, true, map[], map[], 0, 0, 0, {}, multiset{}, 0, {}, 0)

  // ----- pieces shared by the activations

  predicate Aborted(s: State, life: int) {
    life < s.life
  }

  /** `_disposeClient`, up to its await: a client is disconnected only the first time. */
  function Dispose(s: State, c: Option<int>): State {
    if c.None? || c.value in s.disposed then s
    else s.(disposed := s.disposed + {c.value}, disconnectCalls := s.disconnectCalls + multiset{c.value})
  }

  function CloseSession(s: State, n: Option<int>): State {
    if n.None? then s else s.(closed := s.closed + {n.value})
  }

  function ScheduleReconnect(s: State): State {
    if s.timer.Some? then s else s.(timer := Some(s.life))
  }

  function At(s: State, id: int, a: Attempt): State {
    s.(attempts := s.attempts[id := a])
  }

  // ----- _doConnect

  /** The part of the try block before the first await; it may throw before there is a client. */
  function Begin(s: State, id: int, a: Attempt): State {
    if Aborted(s, a.life) || !s.usable then Throw(s, id, a)
    else
      var c := s.clients;
      At(s.(clients := c + 1, client := Some(c)), id, a.(client := Some(c), pc := Preparing))
  }

  /** The catch block. */
  function Throw(s: State, id: int, a: Attempt): State {
    if Aborted(s, a.life) then
      if a.session.Some? then At(CloseSession(s, a.session), id, a.(pc := ClosingAborted))
      else At(Dispose(s, a.client), id, a.(pc := DisposingAborted))
    else At(ScheduleReconnect(s.(errors := s.errors + 1)), id, a.(pc := Settled(false)))
  }

  /** A new attempt: cleaning up the previous client comes first. */
  function Start(s: State): State {
    var id := s.started;
    var a := Attempt(s.life, None, None, Preparing);
    var s1 := s.(started := id + 1, promise := Some(id));
    if s.client.Some? then
      if s.session.Some? then At(CloseSession(s1, s.session), id, a.(pc := ClosingPrevious(s.client.value)))
      else At(Dispose(s1, s.client), id, a.(pc := DisposingPrevious(s.client.value)))
    else Begin(s1, id, a)
  }

  /** `connect()`: at once if connected, else the attempt in flight, else a new one. */
  function Connect(s: State): State {
    if s.isConnected || s.promise.Some? then s else Start(s)
  }

  /** The attempt goes on after its await was resolved or rejected. */
  function ResumeAttempt(s: State, id: int, resolved: bool): State
    requires id in s.attempts
  {
    var a := s.attempts[id];
    match a.pc
    case ClosingPrevious(p) =>
      At(Dispose(s, Some(p)), id, a.(pc := DisposingPrevious(p)))
    case DisposingPrevious(p) =>
      Begin(if s.client == Some(p) then s.(client := None, session := None) else s, id, a)
    case Preparing =>
      if !resolved || Aborted(s, a.life) then Throw(s, id, a) else At(s, id, a.(pc := Connecting))
    case Connecting =>
      if !resolved || Aborted(s, a.life) then Throw(s, id, a) else At(s, id, a.(pc := CreatingSession))
    case CreatingSession =>
      if !resolved then At(Dispose(s, a.client), id, a.(pc := DisposingRefused))
      else
        var n := s.sessions;
        var after := s.(sessions := n + 1);
        var b := a.(session := Some(n));
        if Aborted(s, a.life) then Throw(after, id, b)
        else At(after.(session := Some(n), isConnected := true), id, b.(pc := Settled(true)))
    case DisposingRefused =>
      Throw(if s.client == a.client then s.(client := None) else s, id, a)
    case ClosingAborted =>
      At(Dispose(s, a.client), id, a.(pc := DisposingAborted))
    case DisposingAborted =>
      At(if s.client == a.client then s.(client := None, session := None) else s, id, a.(pc := Released))
    case Settled(ok) => Finally(s, id, ok)
    case Released => Finally(s, id, false)
  }

  /** The finally handler: the promise is cleared, and who awaited it goes on. */
  function Finally(s: State, id: int, ok: bool): State {
    var s1 := s.(promise := None, attempts := s.attempts - {id});
    if s.loop.Some? && s.loop.value.pc == AwaitingConnect(id)
    then s1.(loop := Some(s.loop.value.(pc := Woken(ok))))
    else s1
  }

  // ----- disconnect

  function Waiting(s: State, d: int, pc: DisconnectPc): State {
    s.(disconnects := s.disconnects[d := pc])
  }

  function StartDisconnect(s: State, reconnecting: bool): State {
    var d := s.calls;
    var s1 := s.(calls := d + 1, life := s.life + 1, timer := None);
    if s.promise.Some? then Waiting(Dispose(s1, s.client), d, DisposingInFlight)
    else AfterAttempt(s1, d, reconnecting)
  }

  /** Offline, the client goes first. */
  function AfterAttempt(s: State, d: int, reconnecting: bool): State {
    var offline := !s.isConnected || (s.session.Some? && reconnecting);
    if offline && s.client.Some? then Waiting(Dispose(s, s.client), d, DisposingOffline)
    else Waiting(s, d, Terminating)
  }

  function DisposeLast(s: State, d: int): State {
    if s.client.Some? then Waiting(Dispose(s, s.client), d, DisposingFinal) else Return(s, d)
  }

  function Return(s: State, d: int): State {
    s.(isConnected := false, disconnects := s.disconnects - {d})
  }

  function ResumeDisconnect(s: State, d: int, reconnecting: bool): State
    requires d in s.disconnects
  {
    match s.disconnects[d]
    case DisposingInFlight =>
      if s.promise.Some? then Waiting(s, d, AwaitingAttempt(s.promise.value)) else AfterAttempt(s, d, reconnecting)
    case AwaitingAttempt(_) => AfterAttempt(s, d, reconnecting)
    case DisposingOffline => Waiting(s, d, Terminating)
    case Terminating =>
      if s.session.Some? then Waiting(CloseSession(s, s.session), d, ClosingSession) else DisposeLast(s, d)
    case ClosingSession => DisposeLast(s.(session := None), d)
    case DisposingFinal => Return(s.(client := None), d)
  }

  // ----- reconnect, timers and client events

  /** The loop calls `connect()` and awaits what it returns. */
  function LoopConnect(s: State, life: int): State {
    if s.isConnected then s.(loop := Some(Loop(life, Woken(true))))
    else
      var s1 := Connect(s);
      s1.(loop := Some(Loop(life, if s1.promise.Some? then AwaitingConnect(s1.promise.value) else Woken(true))))
  }

  /**
   `reconnect()`; a recent success may make it do nothing. It always begins by giving the connection up;
   `stopped` is a caller's signal that is aborted already, or no attempts allowed.
   */
  function Reconnect(s: State, cooldown: bool, stopped: bool): State {
    if s.loop.Some? || (cooldown && s.isConnected) then s
    else
      var s1 := s.(isConnected := false);
      if stopped then s1 else LoopConnect(s1, s.life)
  }

  /** The loop goes on; `retry` is whether attempts are left and the caller's own signal is quiet. */
  function ResumeLoop(s: State, retry: bool): State
    requires s.loop.Some?
  {
    var l := s.loop.value;
    match l.pc
    case AwaitingConnect(_) => s
    case Woken(ok) =>
      if ok || Aborted(s, l.life) || !retry then s.(loop := None) else s.(loop := Some(l.(pc := Sleeping)))
    case Sleeping =>
      if Aborted(s, l.life) || !retry then s.(loop := None) else LoopConnect(s, l.life)
  }

  function FireTimer(s: State): State
    requires s.timer.Some?
  {
    var s1 := s.(timer := None);
    if Aborted(s, s.timer.value) then s1 else Connect(s1)
  }

  function FinishRepair(s: State, sessionClosed: bool): State
    requires s.repair.Some?
  {
    var r := s.repair.value;
    var s1 := s.(repair := None);
    if s.client != Some(r.client) || s.session != Some(r.session) then s1
    else if sessionClosed then Connect(s1.(isConnected := false))
    else s1.(isConnected := true)
  }

  /** `_onAfterReconnection`, up to its wait. */
  function AfterReconnection(s: State): State
    requires s.client.Some?
  {
    if s.repair.Some? then s
    else if s.session.Some? then s.(repair := Some(Repair(s.client.value, s.session.value)))
    else Connect(s.(isConnected := false))
  }

  // ----- the machine

  datatype Action =
    | CallConnect
    | CallDisconnect(reconnecting: bool)
    | CallReconnect(cooldown: bool, stopped: bool)
    | ResumesAttempt(id: int, resolved: bool)
    | ResumesDisconnect(d: int, reconnecting: bool)
    | ResumesLoop(retry: bool)
    | TimerFires
    | ConnectionLost
    | ConnectionFailed
    | Reconnected
    | RepairEnds(sessionClosed: bool)
    | OperationTimesOut
    | FilesChange(usable: bool)

  function Step(s: State, act: Action): State
    requires Possible(s, act)
  {
    match act
    case CallConnect => Connect(s)
    case CallDisconnect(reconnecting) => StartDisconnect(s, reconnecting)
    case CallReconnect(cooldown, stopped) => Reconnect(s, cooldown, stopped)
    case ResumesAttempt(id, resolved) => ResumeAttempt(s, id, resolved)
    case ResumesDisconnect(d, reconnecting) => ResumeDisconnect(s, d, reconnecting)
    case ResumesLoop(retry) => ResumeLoop(s, retry)
    case TimerFires => FireTimer(s)
    case ConnectionLost => s.(isConnected := false)
    case ConnectionFailed => ScheduleReconnect(s.(isConnected := false))
    case Reconnected => AfterReconnection(s)
    case RepairEnds(sessionClosed) => FinishRepair(s, sessionClosed)
    case OperationTimesOut => s.(isConnected := false)
    case FilesChange(usable) => s.(usable := usable)
  }

  /** What can happen at all: an activation exists, and what it awaits may have happened. */
  predicate Possible(s: State, act: Action) {
    match act
    case ResumesAttempt(id, _) => id in s.attempts
    case ResumesDisconnect(d, _) =>
      d in s.disconnects && (s.disconnects[d].AwaitingAttempt? ==> s.disconnects[d].attempt !in s.attempts)
    case ResumesLoop(_) => s.loop.Some?
    case TimerFires => s.timer.Some?
    case ConnectionLost => HasListeners(s)
    case ConnectionFailed => HasListeners(s)
    case Reconnected => HasListeners(s)
    case RepairEnds(_) => s.repair.Some?
    case _ => true
  }

  /** The client is there and its listeners have not been removed. */
  predicate HasListeners(s: State) {
    s.client.Some? && s.client.value !in s.disposed && forall id :: id in s.attempts ==> !CleaningUp(s.attempts[id])
  }

  predicate CleaningUp(a: Attempt) {
    a.pc.ClosingPrevious? || a.pc.DisposingPrevious?
  }

  /**
   The interleavings considered: while a disconnect is running no new attempt begins, and no client event
   or end of a repair falls into a disconnect or into the cleanup of an attempt.
   */
  predicate Considered(s: State, act: Action)
    requires Possible(s, act)
  {
    && (Step(s, act).started > s.started ==> s.disconnects == map[])
    && (act.ConnectionLost? || act.ConnectionFailed? || act.Reconnected? || act.RepairEnds? ==>
          s.disconnects == map[] && forall id :: id in s.attempts ==> !CleaningUp(s.attempts[id]))
  }

  predicate Allowed(s: State, act: Action) {
    Possible(s, act) && Considered(s, act)
  }

  /** The state after a run, if every action of the run was allowed when it happened. */
  function Execute(acts: seq<Action>): Option<State> {
    if acts == [] then Some(INITIAL)
    else
      var before := Execute(acts[..|acts| - 1]);
      if before.Some? && Allowed(before.value, acts[|acts| - 1])
      then Some(Step(before.value, acts[|acts| - 1])) else None
  }

  // ----- invariants

  /** Single flight: there is one attempt in progress, the one whose promise `connect()` hands out, or none. */
  ghost predicate SingleFlight(s: State) {
    && (s.promise.None? ==> s.attempts == map[])
    && (s.promise.Some? ==> s.attempts.Keys == {s.promise.value} && s.promise.value < s.started)
  }

  /** The only client that may still be open is the manager's own; the others were disconnected once. */
  ghost predicate NoLeakedClient(s: State) {
    && (forall c :: 0 <= c < s.clients && c !in s.disposed ==> s.client == Some(c))
    && (forall c :: c in s.disposed ==> 0 <= c < s.clients)
    && (s.client.Some? ==> 0 <= s.client.value < s.clients)
    && s.clients >= 0
    && (forall c :: s.disconnectCalls[c] == if c in s.disposed then 1 else 0)
  }

  /** The only session that may still be open is the manager's own. */
  ghost predicate NoLeakedSession(s: State) {
    && (forall n :: 0 <= n < s.sessions && n !in s.closed ==> s.session == Some(n))
    && s.sessions >= 0
    && (s.client.None? ==> s.session.None?)
  }

  /** What an attempt knows at each of its awaits. */
  ghost predicate AttemptOk(s: State, a: Attempt) {
    && a.life <= s.life
    && match a.pc
       case ClosingPrevious(p) =>
         s.client == Some(p) && a.client.None? && a.session.None? && (s.session.Some? ==> s.session.value in s.closed)
       case DisposingPrevious(p) =>
         && s.client == Some(p) && a.client.None? && a.session.None?
         && (s.session.Some? ==> s.session.value in s.closed)
         && p in s.disposed
       case Preparing => OwnClient(s, a)
       case Connecting => OwnClient(s, a)
       case CreatingSession => OwnClient(s, a)
       case DisposingRefused => OwnClient(s, a) && a.client.value in s.disposed
       case ClosingAborted => OwnClient(s, a.(session := None)) && GivenBack(s, a.(client := None))
       case DisposingAborted => s.session.None? && (s.client == a.client || s.client.None?) && GivenBack(s, a)
       case Settled(_) => true
       case Released => GivenBack(s, a)
  }

  ghost predicate OwnClient(s: State, a: Attempt) {
    a.client.Some? && s.client == a.client && s.session.None? && a.session.None?
  }

  /** Its client is disposed and its session closed, as far as it had any. */
  ghost predicate GivenBack(s: State, a: Attempt) {
    (a.client.Some? ==> a.client.value in s.disposed) && (a.session.Some? ==> a.session.value in s.closed)
  }

  ghost predicate AttemptsOk(s: State) {
    forall id :: id in s.attempts ==> AttemptOk(s, s.attempts[id])
  }

  /** What a disconnect knows at each of its awaits. */
  ghost predicate DisconnectOk(s: State, pc: DisconnectPc) {
    match pc
    case DisposingInFlight => true
    case AwaitingAttempt(a) => s.promise.Some? ==> s.promise.value == a
    case DisposingOffline => s.promise.None?
    case Terminating => s.promise.None?
    case ClosingSession => s.promise.None? && (s.session.Some? ==> s.session.value in s.closed)
    case DisposingFinal => s.promise.None? && s.session.None? && (s.client.Some? ==> s.client.value in s.disposed)
  }

  ghost predicate DisconnectsOk(s: State) {
    && (forall d :: d in s.disconnects ==> DisconnectOk(s, s.disconnects[d]) && d < s.calls)
    && (s.disconnects != map[] ==> s.timer.None? && forall id :: id in s.attempts ==> Aborted(s, s.attempts[id].life))
    && (s.timer.Some? ==> s.timer.value == s.life)
  }

  ghost predicate Inv(s: State) {
    SingleFlight(s) && NoLeakedClient(s) && NoLeakedSession(s) && AttemptsOk(s) && DisconnectsOk(s)
  }

  lemma InitialInv()
    ensures Inv(INITIAL)
  {
  }

  // ----- every step keeps them

  /** Everything but the attempt and disconnect conditions, which the steps below re-establish. */
  ghost predicate Clean(s: State) {
    NoLeakedClient(s) && NoLeakedSession(s)
  }

  lemma DisposeClean(s: State, c: Option<int>)
    requires Clean(s) && (c.Some? ==> 0 <= c.value < s.clients)
    ensures Clean(Dispose(s, c)) && (c.Some? ==> c.value in Dispose(s, c).disposed)
  {
  }

  /** The state changes the steps are made of, each on its own. */
  lemma AtInv(s: State, id: int, b: Attempt)
    requires Inv(s) && id in s.attempts && b.life == s.attempts[id].life && AttemptOk(s, b)
    ensures Inv(At(s, id, b)) && At(s, id, b).attempts.Keys == {id} && At(s, id, b).attempts[id] == b
  {
    assert forall d :: d in s.disconnects ==> DisconnectOk(s, s.disconnects[d]);
    assert At(s, id, b).attempts.Keys == {id};
  }

  lemma ErrorInv(s: State)
    requires Inv(s) && s.disconnects == map[]
    ensures Inv(ScheduleReconnect(s.(errors := s.errors + 1)))
  {
    assert forall id :: id in s.attempts ==> AttemptOk(s, s.attempts[id]);
  }

  /** With no attempt that relies on it, a disposed client and its closed session can be forgotten. */
  lemma ClearedInv(s: State, id: int)
    requires Inv(s) && id in s.attempts && s.attempts[id].pc.Settled?
    requires s.client.Some? ==> s.client.value in s.disposed
    requires s.session.Some? ==> s.session.value in s.closed
    ensures Inv(s.(client := None, session := None))
  {
    assert s.attempts.Keys == {id};
    assert forall d :: d in s.disconnects ==> DisconnectOk(s, s.disconnects[d]);
  }

  lemma CreatedInv(s: State, id: int)
    requires Inv(s) && id in s.attempts && s.attempts[id].pc.Settled? && s.client.None? && s.disconnects == map[]
    ensures Inv(s.(clients := s.clients + 1, client := Some(s.clients)))
  {
    assert s.attempts.Keys == {id};
  }

  lemma LiveMeansNoDisconnect(s: State, id: int)
    requires Inv(s) && id in s.attempts && !Aborted(s, s.attempts[id].life)
    ensures s.disconnects == map[]
  {
  }

  lemma OneAttempt(s: State, id: int)
    requires Inv(s) && id in s.attempts
    ensures s.attempts.Keys == {id} && AttemptOk(s, s.attempts[id])
  {
  }

  /** Nobody else looks at an attempt's record, so what it was in between does not matter. */
  lemma AtTwice(s: State, id: int, a: Attempt, b: Attempt)
    ensures At(At(s, id, a), id, b) == At(s, id, b)
  {
  }

  lemma NewAttemptInv(s: State)
    requires Inv(s) && s.promise.None? && s.disconnects == map[]
    ensures Inv(At(s.(started := s.started + 1, promise := Some(s.started)), s.started,
                   Attempt(s.life, None, None, Settled(false))))
    ensures s.client.None? ==> s.session.None?
  {
    assert s.attempts == map[];
  }

  lemma CloseOwnInv(s: State)
    requires Inv(s)
    ensures Inv(CloseSession(s, s.session))
    ensures s.session.Some? ==> s.session.value in CloseSession(s, s.session).closed
  {
    assert forall id :: id in s.attempts ==> AttemptOk(s, s.attempts[id]);
    assert forall d :: d in s.disconnects ==> DisconnectOk(s, s.disconnects[d]);
  }

  /** Disposing and recording are independent. */
  lemma DisposeOfAt(s: State, id: int, a: Attempt)
    ensures Dispose(At(s, id, a), s.client) == At(Dispose(s, s.client), id, a)
  {
  }

  lemma DisposeAt(s: State, id: int, a: Attempt, b: Attempt)
    ensures At(Dispose(At(s, id, a), s.client), id, b) == At(Dispose(s, s.client), id, b)
  {
    hide At;
    AtTwice(Dispose(s, s.client), id, a, b);
    DisposeOfAt(s, id, a);
  }

  lemma StartByClosingInv(u: State, s1: State, id: int, a: Attempt)
    requires u == At(s1, id, a.(pc := Settled(false))) && Inv(u)
    requires s1.client.Some? && s1.session.Some? && a.client.None? && a.session.None?
    ensures Inv(At(CloseSession(s1, s1.session), id, a.(pc := ClosingPrevious(s1.client.value))))
  {
    CloseOwnInv(u);
    OneAttempt(u, id);
    hide Inv;
    var b := a.(pc := ClosingPrevious(s1.client.value));
    AtInv(CloseSession(u, u.session), id, b);
    AtTwice(CloseSession(s1, s1.session), id, a.(pc := Settled(false)), b);
  }

  lemma StartByDisposingInv(u: State, s1: State, id: int, a: Attempt)
    requires u == At(s1, id, a.(pc := Settled(false))) && Inv(u)
    requires s1.client.Some? && s1.session.None? && a.client.None? && a.session.None?
    ensures Inv(At(Dispose(s1, s1.client), id, a.(pc := DisposingPrevious(s1.client.value))))
  {
    DisposeOwnInv(u);
    DisposeKeepsRest(u);
    hide Inv;
    var b := a.(pc := DisposingPrevious(s1.client.value));
    DisposeAt(s1, id, a.(pc := Settled(false)), b);
    hide Dispose;
    AtInv(Dispose(u, u.client), id, b);
  }

  lemma StartInv(s: State)
    requires Inv(s) && s.promise.None? && s.disconnects == map[]
    ensures Inv(Start(s))
  {
    hide Inv, Begin, Dispose, CloseSession, At;
    NewAttemptInv(s);
    var id := s.started;
    var a := Attempt(s.life, None, None, Preparing);
    var s1 := s.(started := id + 1, promise := Some(id));
    var u := At(s1, id, a.(pc := Settled(false)));
    if s.client.None? {
      BeginFromSettledInv(u, s1, id, a);
    } else if s.session.Some? {
      StartByClosingInv(u, s1, id, a);
    } else {
      StartByDisposingInv(u, s1, id, a);
    }
  }

  lemma ConnectInv(s: State)
    requires Inv(s) && (Connect(s).started > s.started ==> s.disconnects == map[])
    ensures Inv(Connect(s))
  {
    hide Inv;
    if !s.isConnected && s.promise.None? {
      StartsOne(s);
      StartInv(s);
    }
  }

  lemma StartsOne(s: State)
    ensures Start(s).started == s.started + 1
  {
  }

  /** The catch block of an attempt whose lifecycle goes on. */
  lemma ThrowLiveInv(s: State, id: int, a: Attempt)
    requires Inv(s) && id in s.attempts && a.life == s.attempts[id].life && !Aborted(s, a.life)
    ensures Inv(Throw(s, id, a))
  {
    assert s.attempts.Keys == {id};
    assert AttemptOk(s, s.attempts[id]);
  }

  /** The catch block of an aborted attempt without a session. */
  lemma ThrowAbortedInv(s: State, id: int, a: Attempt)
    requires Inv(s) && id in s.attempts && a.life == s.attempts[id].life && Aborted(s, a.life)
    requires a.session.None? && s.session.None? && s.client == a.client
    ensures Inv(Throw(s, id, a))
  {
    DisposeOwnInv(s);
    DisposeKeepsRest(s);
    hide Inv, Dispose;
    AtInv(Dispose(s, s.client), id, a.(pc := DisposingAborted));
  }

  lemma ResumeAttemptInv(s: State, id: int, resolved: bool)
    requires Inv(s) && id in s.attempts
    ensures Inv(ResumeAttempt(s, id, resolved))
  {
    var a := s.attempts[id];
    assert AttemptOk(s, a) && s.attempts.Keys == {id} && s.promise == Some(id);
    match a.pc
    case ClosingPrevious(p) => PreviousClosedInv(s, id);
    case DisposingPrevious(p) => PreviousDisposedInv(s, id);
    case Preparing => TryInv(s, id, resolved);
    case Connecting => TryInv(s, id, resolved);
    case CreatingSession => SessionInv(s, id, resolved);
    case DisposingRefused => RefusedInv(s, id);
    case ClosingAborted => AbortedClosedInv(s, id);
    case DisposingAborted => AbortedDisposedInv(s, id);
    case Settled(ok) => FinallyInv(s, id, ok);
    case Released => FinallyInv(s, id, false);
  }

  lemma PreviousClosedInv(s: State, id: int)
    requires Inv(s) && id in s.attempts && s.attempts[id].pc.ClosingPrevious?
    ensures Inv(ResumeAttempt(s, id, true))
  {
    OneAttempt(s, id);
    var a := s.attempts[id];
    DisposeOwnInv(s);
    DisposeKeepsRest(s);
    hide Inv, Dispose;
    AtInv(Dispose(s, s.client), id, a.(pc := DisposingPrevious(a.pc.previous)));
  }

  lemma PreviousDisposedInv(s: State, id: int)
    requires Inv(s) && id in s.attempts && s.attempts[id].pc.DisposingPrevious?
    ensures Inv(ResumeAttempt(s, id, true))
  {
    hide Begin;
    var a := s.attempts[id];
    assert AttemptOk(s, a) && s.attempts.Keys == {id};
    BeginKeepsOnlyRest(s, s.(client := None, session := None), id, a);
  }

  /** `Begin` overwrites the attempt, so it does not matter what the attempt was before. */
  lemma BeginKeepsOnlyRest(s: State, cleared: State, id: int, a: Attempt)
    requires Inv(s) && id in s.attempts && a == s.attempts[id] && a.pc.DisposingPrevious?
    requires cleared == s.(client := None, session := None)
    ensures Inv(Begin(cleared, id, a))
  {
    OneAttempt(s, id);
    hide Inv;
    var settled := a.(pc := Settled(false));
    AtInv(s, id, settled);
    var t := At(s, id, settled);
    ClearedInv(t, id);
    var u := t.(client := None, session := None);
    assert At(cleared, id, settled) == u;
    BeginFromSettledInv(u, cleared, id, a);
  }

  lemma ThrowFromSettledInv(u: State, cleared: State, id: int, a: Attempt)
    requires u == At(cleared, id, a.(pc := Settled(false))) && Inv(u) && !Aborted(cleared, a.life)
    ensures Inv(Throw(cleared, id, a))
  {
    LiveMeansNoDisconnect(u, id);
    hide Inv, CloseSession, Dispose;
    ErrorInv(u);
  }

  lemma CreateFromSettledInv(u: State, cleared: State, id: int, a: Attempt)
    requires u == At(cleared, id, a.(pc := Settled(false))) && Inv(u) && !Aborted(cleared, a.life) && cleared.usable
    requires cleared.client.None? && cleared.session.None? && a.client.None? && a.session.None?
    ensures Inv(Begin(cleared, id, a))
  {
    LiveMeansNoDisconnect(u, id);
    CreatedInv(u, id);
    hide Inv, Throw;
    var c := cleared.clients;
    var b := a.(client := Some(c), pc := Preparing);
    AtInv(u.(clients := c + 1, client := Some(c)), id, b);
    AtTwice(cleared.(clients := c + 1, client := Some(c)), id, a.(pc := Settled(false)), b);
  }

  lemma BeginFromSettledInv(u: State, cleared: State, id: int, a: Attempt)
    requires u == At(cleared, id, a.(pc := Settled(false))) && Inv(u)
    requires cleared.client.None? && cleared.session.None? && a.client.None? && a.session.None?
    ensures Inv(Begin(cleared, id, a))
  {
    hide Inv;
    if Aborted(cleared, a.life) {
      AtInv(u, id, a.(pc := DisposingAborted));
      AtTwice(cleared, id, a.(pc := Settled(false)), a.(pc := DisposingAborted));
    } else if !cleared.usable {
      ThrowFromSettledInv(u, cleared, id, a);
    } else {
      CreateFromSettledInv(u, cleared, id, a);
    }
  }

  lemma TryInv(s: State, id: int, resolved: bool)
    requires Inv(s) && id in s.attempts && (s.attempts[id].pc.Preparing? || s.attempts[id].pc.Connecting?)
    ensures Inv(ResumeAttempt(s, id, resolved))
  {
    var a := s.attempts[id];
    assert AttemptOk(s, a) && s.attempts.Keys == {id};
    if Aborted(s, a.life) {
      ThrowAbortedInv(s, id, a);
    } else if !resolved {
      ThrowLiveInv(s, id, a);
    }
  }

  lemma SessionInv(s: State, id: int, resolved: bool)
    requires Inv(s) && id in s.attempts && s.attempts[id].pc.CreatingSession?
    ensures Inv(ResumeAttempt(s, id, resolved))
  {
    if !resolved {
      SessionRefusedInv(s, id);
    } else if Aborted(s, s.attempts[id].life) {
      SessionTooLateInv(s, id);
    } else {
      SessionInstalledInv(s, id);
    }
  }

  lemma SessionRefusedInv(s: State, id: int)
    requires Inv(s) && id in s.attempts && s.attempts[id].pc.CreatingSession?
    ensures Inv(ResumeAttempt(s, id, false))
  {
    OneAttempt(s, id);
    var a := s.attempts[id];
    DisposeOwnInv(s);
    DisposeKeepsRest(s);
    hide Inv, Dispose;
    AtInv(Dispose(s, s.client), id, a.(pc := DisposingRefused));
  }

  lemma SessionTooLateInv(s: State, id: int)
    requires Inv(s) && id in s.attempts && s.attempts[id].pc.CreatingSession? && Aborted(s, s.attempts[id].life)
    ensures Inv(ResumeAttempt(s, id, true))
  {
    var a := s.attempts[id];
    assert AttemptOk(s, a) && s.attempts.Keys == {id};
  }

  lemma SessionInstalledInv(s: State, id: int)
    requires Inv(s) && id in s.attempts && s.attempts[id].pc.CreatingSession? && !Aborted(s, s.attempts[id].life)
    ensures Inv(ResumeAttempt(s, id, true))
  {
    var a := s.attempts[id];
    assert AttemptOk(s, a) && s.attempts.Keys == {id};
  }

  lemma RefusedInv(s: State, id: int)
    requires Inv(s) && id in s.attempts && s.attempts[id].pc.DisposingRefused?
    ensures Inv(ResumeAttempt(s, id, true))
  {
    OneAttempt(s, id);
    var a := s.attempts[id];
    var settled := a.(pc := Settled(false));
    assert s.client == a.client && s.session.None?;
    hide Inv;
    AtInv(s, id, settled);
    ClearedInv(At(s, id, settled), id);
    RefusedFromSettledInv(At(s, id, settled).(client := None, session := None), s.(client := None), id, a);
  }

  lemma RefusedFromSettledInv(u: State, cleared: State, id: int, a: Attempt)
    requires u == At(cleared, id, a.(pc := Settled(false))) && Inv(u)
    requires cleared.client.None? && cleared.session.None? && a.session.None?
    requires a.client.Some? && a.client.value in cleared.disposed
    ensures Inv(Throw(cleared, id, a))
  {
    hide Inv;
    if Aborted(cleared, a.life) {
      AtInv(u, id, a.(pc := DisposingAborted));
      AtTwice(cleared, id, a.(pc := Settled(false)), a.(pc := DisposingAborted));
    } else {
      ThrowFromSettledInv(u, cleared, id, a);
    }
  }

  lemma AbortedClosedInv(s: State, id: int)
    requires Inv(s) && id in s.attempts && s.attempts[id].pc.ClosingAborted?
    ensures Inv(ResumeAttempt(s, id, true))
  {
    OneAttempt(s, id);
    var a := s.attempts[id];
    DisposeOwnInv(s);
    DisposeKeepsRest(s);
    hide Inv, Dispose;
    AtInv(Dispose(s, s.client), id, a.(pc := DisposingAborted));
  }

  lemma AbortedDisposedInv(s: State, id: int)
    requires Inv(s) && id in s.attempts && s.attempts[id].pc.DisposingAborted?
    ensures Inv(ResumeAttempt(s, id, true))
  {
    OneAttempt(s, id);
    var a := s.attempts[id];
    assert s.session.None?;
    hide Inv;
    if s.client == a.client {
      var settled := a.(pc := Settled(false));
      AtInv(s, id, settled);
      ClearedInv(At(s, id, settled), id);
      AtInv(At(s, id, settled).(client := None, session := None), id, a.(pc := Released));
      AtTwice(s.(client := None, session := None), id, settled, a.(pc := Released));
    } else {
      AtInv(s, id, a.(pc := Released));
    }
  }

  lemma SettledInv(s: State)
    requires Inv(s)
    ensures Inv(s.(promise := None, attempts := map[]))
  {
    assert forall d :: d in s.disconnects ==> DisconnectOk(s, s.disconnects[d]);
  }

  lemma FinallyInv(s: State, id: int, ok: bool)
    requires Inv(s) && id in s.attempts
    ensures Inv(Finally(s, id, ok))
  {
    OneAttempt(s, id);
    assert s.attempts - {id} == map[];
    SettledInv(s);
    hide Inv;
    var t := s.(promise := None, attempts := map[]);
    OtherFieldsInv(t, t.isConnected, Finally(s, id, ok).loop, t.repair);
  }

  /** The synchronous opening of a disconnect. */
  function Abort(s: State): State {
    s.(calls := s.calls + 1, life := s.life + 1, timer := None)
  }

  lemma AbortInv(s: State)
    requires Inv(s)
    ensures Inv(Abort(s)) && forall id :: id in s.attempts ==> Aborted(Abort(s), s.attempts[id].life)
  {
    assert forall id :: id in s.attempts ==> AttemptOk(s, s.attempts[id]);
    assert forall d :: d in s.disconnects ==> DisconnectOk(s, s.disconnects[d]);
  }

  /** Disposing the manager's client never invalidates what anyone waiting knows. */
  lemma DisposeOwnInv(s: State)
    requires Inv(s)
    ensures Inv(Dispose(s, s.client)) && (s.client.Some? ==> s.client.value in Dispose(s, s.client).disposed)
  {
    DisposeClean(s, s.client);
    assert forall id :: id in s.attempts ==> AttemptOk(s, s.attempts[id]);
    assert forall d :: d in s.disconnects ==> DisconnectOk(s, s.disconnects[d]);
  }

  lemma WaitingInv(s: State, d: int, pc: DisconnectPc)
    requires Inv(s) && DisconnectOk(s, pc) && d < s.calls && s.timer.None?
    requires forall id :: id in s.attempts ==> Aborted(s, s.attempts[id].life)
    ensures Inv(Waiting(s, d, pc))
  {
    WaitingKeepsOk(s, d, pc);
    hide AttemptOk, DisconnectOk;
  }

  lemma WaitingKeepsOk(s: State, d: int, pc: DisconnectPc)
    ensures forall a :: AttemptOk(Waiting(s, d, pc), a) <==> AttemptOk(s, a)
    ensures forall other :: DisconnectOk(Waiting(s, d, pc), other) <==> DisconnectOk(s, other)
  {
  }

  lemma AfterAttemptInv(s: State, d: int, reconnecting: bool)
    requires Inv(s) && s.promise.None? && d < s.calls && s.timer.None?
    ensures Inv(AfterAttempt(s, d, reconnecting))
  {
    NoAttempt(s);
    DisposeOwnInv(s);
    hide Inv, Waiting, Dispose;
    DisposeKeepsRest(s);
    var offline := !s.isConnected || (s.session.Some? && reconnecting);
    if offline && s.client.Some? {
      WaitingInv(Dispose(s, s.client), d, DisposingOffline);
    } else {
      WaitingInv(s, d, Terminating);
    }
  }

  lemma NoAttempt(s: State)
    requires Inv(s) && s.promise.None?
    ensures s.attempts == map[]
  {
  }

  lemma DisposeKeepsRest(s: State)
    ensures var t := Dispose(s, s.client);
            && t.attempts == s.attempts && t.promise == s.promise && t.timer == s.timer
            && t.calls == s.calls && t.life == s.life
            && t.session == s.session && t.closed == s.closed && t.client == s.client && t.disconnects == s.disconnects
  {
  }

  /** An attempt in flight: its client is disposed, and the disconnect waits. */
  lemma DisposeInFlightInv(s: State, d: int)
    requires Inv(s) && d < s.calls && s.timer.None?
    requires forall id :: id in s.attempts ==> Aborted(s, s.attempts[id].life)
    ensures Inv(Waiting(Dispose(s, s.client), d, DisposingInFlight))
  {
    DisposeOwnInv(s);
    DisposeKeepsRest(s);
    hide Inv, Waiting, Dispose;
    WaitingInv(Dispose(s, s.client), d, DisposingInFlight);
  }

  lemma StartDisconnectInv(s: State, reconnecting: bool)
    requires Inv(s)
    ensures Inv(StartDisconnect(s, reconnecting))
  {
    hide Inv, Waiting, Dispose, AfterAttempt;
    AbortInv(s);
    var t := Abort(s);
    if s.promise.Some? {
      DisposeInFlightInv(t, s.calls);
    } else {
      AfterAttemptInv(t, s.calls, reconnecting);
    }
  }

  lemma DisposeLastInv(s: State, d: int)
    requires Inv(s) && s.promise.None? && s.session.None? && d < s.calls && s.timer.None?
    ensures Inv(DisposeLast(s, d))
  {
    NoAttempt(s);
    DisposeOwnInv(s);
    DisposeKeepsRest(s);
    hide Waiting, Dispose;
    if s.client.Some? {
      WaitingInv(Dispose(s, s.client), d, DisposingFinal);
    } else {
      assert forall e :: e in s.disconnects ==> DisconnectOk(s, s.disconnects[e]);
    }
  }

  lemma SessionClosingInv(s: State, d: int)
    requires Inv(s) && s.promise.None? && d < s.calls && s.timer.None?
    ensures Inv(Waiting(CloseSession(s, s.session), d, ClosingSession))
  {
    NoAttempt(s);
    assert forall e :: e in s.disconnects ==> DisconnectOk(s, s.disconnects[e]);
  }

  lemma SessionClosedInv(s: State)
    requires Inv(s) && s.promise.None? && (s.session.Some? ==> s.session.value in s.closed)
    ensures Inv(s.(session := None))
  {
    NoAttempt(s);
    assert forall e :: e in s.disconnects ==> DisconnectOk(s, s.disconnects[e]);
  }

  lemma ClientGoneInv(s: State, d: int)
    requires Inv(s) && s.promise.None? && s.session.None? && (s.client.Some? ==> s.client.value in s.disposed)
    ensures Inv(Return(s.(client := None), d))
  {
    NoAttempt(s);
    assert forall e :: e in s.disconnects ==> DisconnectOk(s, s.disconnects[e]);
  }

  lemma ResumeDisconnectInv(s: State, d: int, reconnecting: bool)
    requires Inv(s) && Possible(s, ResumesDisconnect(d, reconnecting))
    ensures Inv(ResumeDisconnect(s, d, reconnecting))
  {
    var pc := s.disconnects[d];
    assert DisconnectOk(s, pc) && d < s.calls && s.timer.None?;
    assert forall id :: id in s.attempts ==> Aborted(s, s.attempts[id].life);
    assert pc.AwaitingAttempt? ==> s.promise.None?;
    hide Inv, Waiting, AfterAttempt, DisposeLast;
    match pc
    case DisposingInFlight =>
      if s.promise.Some? {
        WaitingInv(s, d, AwaitingAttempt(s.promise.value));
      } else {
        AfterAttemptInv(s, d, reconnecting);
      }
    case AwaitingAttempt(_) => AfterAttemptInv(s, d, reconnecting);
    case DisposingOffline => WaitingInv(s, d, Terminating);
    case Terminating =>
      if s.session.Some? {
        SessionClosingInv(s, d);
      } else {
        DisposeLastInv(s, d);
      }
    case ClosingSession =>
      SessionClosedInv(s);
      DisposeLastInv(s.(session := None), d);
    case DisposingFinal => ClientGoneInv(s, d);
  }

  /** Fields no invariant speaks of. */
  lemma OtherFieldsInv(s: State, isConnected: bool, loop: Option<Loop>, repair: Option<Repair>)
    requires Inv(s)
    ensures Inv(s.(isConnected := isConnected, loop := loop, repair := repair))
  {
    assert forall id :: id in s.attempts ==> AttemptOk(s, s.attempts[id]);
    assert forall d :: d in s.disconnects ==> DisconnectOk(s, s.disconnects[d]);
  }

  lemma FilesInv(s: State, usable: bool)
    requires Inv(s)
    ensures Inv(s.(usable := usable))
  {
    assert forall id :: id in s.attempts ==> AttemptOk(s, s.attempts[id]);
    assert forall d :: d in s.disconnects ==> DisconnectOk(s, s.disconnects[d]);
  }

  lemma TimerInv(s: State, armed: bool)
    requires Inv(s) && (armed ==> s.disconnects == map[])
    ensures Inv(s.(timer := if armed then Some(s.life) else None))
  {
    assert forall id :: id in s.attempts ==> AttemptOk(s, s.attempts[id]);
    assert forall d :: d in s.disconnects ==> DisconnectOk(s, s.disconnects[d]);
  }

  lemma LoopConnectInv(s: State, life: int)
    requires Inv(s) && (LoopConnect(s, life).started > s.started ==> s.disconnects == map[])
    ensures Inv(LoopConnect(s, life))
  {
    hide Inv, Connect;
    OtherFieldsInv(s, s.isConnected, Some(Loop(life, Woken(true))), s.repair);
    if !s.isConnected {
      ConnectInv(s);
      var t := Connect(s);
      OtherFieldsInv(t, t.isConnected, LoopConnect(s, life).loop, t.repair);
    }
  }

  /** Every allowed step keeps the invariants. */
  lemma StepInv(s: State, act: Action)
    requires Inv(s) && Allowed(s, act)
    ensures Inv(Step(s, act))
  {
    hide Inv, Connect, LoopConnect, StartDisconnect, ResumeAttempt, ResumeDisconnect;
    OtherFieldsInv(s, false, s.loop, s.repair);
    var lost := s.(isConnected := false);
    match act
    case CallConnect => ConnectInv(s);
    case CallDisconnect(reconnecting) => StartDisconnectInv(s, reconnecting);
    case CallReconnect(_, _) => LoopConnectsInv(s, lost, s.life, act);
    case ResumesAttempt(id, resolved) => ResumeAttemptInv(s, id, resolved);
    case ResumesDisconnect(d, reconnecting) => ResumeDisconnectInv(s, d, reconnecting);
    case ResumesLoop(_) =>
      OtherFieldsInv(s, s.isConnected, Step(s, act).loop, s.repair);
      LoopConnectsInv(s, s, s.loop.value.life, act);
    case TimerFires =>
      TimerInv(s, false);
      ConnectsInv(s, s.(timer := None), act);
    case ConnectionLost =>
    case ConnectionFailed => TimerInv(lost, true);
    case Reconnected =>
      OtherFieldsInv(s, s.isConnected, s.loop, Step(s, act).repair);
      ConnectsInv(s, lost, act);
    case RepairEnds(_) =>
      OtherFieldsInv(s, s.isConnected, s.loop, None);
      OtherFieldsInv(s, true, s.loop, None);
      OtherFieldsInv(s, false, s.loop, None);
      ConnectsInv(s, s.(repair := None, isConnected := false), act);
    case OperationTimesOut =>
    case FilesChange(usable) => FilesInv(s, usable);
  }

  lemma ConnectsInv(s: State, t: State, act: Action)
    requires Inv(t) && t.disconnects == s.disconnects && t.started == s.started && Allowed(s, act)
    ensures Step(s, act) == Connect(t) ==> Inv(Step(s, act))
  {
    hide Inv, Connect, Step;
    if Step(s, act) == Connect(t) {
      ConnectInv(t);
    }
  }

  lemma LoopConnectsInv(s: State, t: State, life: int, act: Action)
    requires Inv(t) && t.disconnects == s.disconnects && t.started == s.started && Allowed(s, act)
    ensures Step(s, act) == LoopConnect(t, life) ==> Inv(Step(s, act))
  {
    hide Inv, LoopConnect, Step;
    if Step(s, act) == LoopConnect(t, life) {
      LoopConnectInv(t, life);
    }
  }

  /** Over every run: single flight, and no client or session left behind. */
  lemma {:induction false} AlwaysInv(acts: seq<Action>)
    requires Execute(acts).Some?
    ensures Inv(Execute(acts).value)
  {
    hide Inv, Allowed, Step;
    InitialInv();
    if acts != [] {
      AlwaysInv(acts[..|acts| - 1]);
      StepInv(Execute(acts[..|acts| - 1]).value, acts[|acts| - 1]);
    }
  }

  // ----- what the invariants give

  /** Nothing the manager ever opened is still open. */
  predicate AllReleased(s: State) {
    && (forall c :: 0 <= c < s.clients ==> c in s.disposed)
    && (forall n :: 0 <= n < s.sessions ==> n in s.closed)
  }

  /** At most one client is open, and it is the manager's; no client was disconnected twice. */
  lemma NoLeakedConnection(acts: seq<Action>, c: int)
    requires Execute(acts).Some? && 0 <= c < Execute(acts).value.clients
    ensures var s := Execute(acts).value;
            && (c !in s.disposed ==> s.client == Some(c))
            && s.disconnectCalls[c] == (if c in s.disposed then 1 else 0)
  {
    AlwaysInv(acts);
  }

  lemma StillWaiting(s: State, d: int, pc: DisconnectPc)
    ensures d in Waiting(s, d, pc).disconnects
  {
  }

  lemma NotReturned(s: State, d: int, reconnecting: bool)
    requires d in s.disconnects && (s.disconnects[d].DisposingInFlight? || s.disconnects[d].AwaitingAttempt?)
    ensures d in ResumeDisconnect(s, d, reconnecting).disconnects
  {
    hide Waiting, Dispose;
    StillWaiting(Dispose(s, s.client), d, DisposingOffline);
    StillWaiting(s, d, Terminating);
    if s.promise.Some? {
      StillWaiting(s, d, AwaitingAttempt(s.promise.value));
    }
  }

  lemma ReturnedState(s: State, d: int, reconnecting: bool)
    requires d in s.disconnects && DisconnectOk(s, s.disconnects[d])
    requires d !in ResumeDisconnect(s, d, reconnecting).disconnects
    ensures s.promise.None?
    ensures var t := ResumeDisconnect(s, d, reconnecting);
            t.client.None? && t.session.None? && !t.isConnected && t.attempts == s.attempts && t.timer == s.timer
  {
    hide CloseSession, Dispose, Waiting;
    DisposeKeepsRest(s);
    match s.disconnects[d]
    case DisposingInFlight => NotReturned(s, d, reconnecting);
    case AwaitingAttempt(_) => NotReturned(s, d, reconnecting);
    case DisposingOffline => StillWaiting(s, d, Terminating);
    case Terminating =>
      StillWaiting(CloseSession(s, s.session), d, ClosingSession);
      StillWaiting(Dispose(s, s.client), d, DisposingFinal);
    case ClosingSession =>
      StillWaiting(Dispose(s.(session := None), s.client), d, DisposingFinal);
    case DisposingFinal =>
  }

  /** When a disconnect returns, in any run: every client is disposed, every session closed, nothing pending. */
  lemma DisconnectReleasesAll(acts: seq<Action>, d: int, reconnecting: bool)
    requires Execute(acts).Some? && Allowed(Execute(acts).value, ResumesDisconnect(d, reconnecting))
    requires d !in Step(Execute(acts).value, ResumesDisconnect(d, reconnecting)).disconnects
    ensures var s := Step(Execute(acts).value, ResumesDisconnect(d, reconnecting));
            && AllReleased(s)
            && s.client.None? && s.session.None? && !s.isConnected && s.attempts == map[] && s.timer.None?
  {
    hide Execute;
    AlwaysInv(acts);
    var s := Execute(acts).value;
    StepInv(s, ResumesDisconnect(d, reconnecting));
    assert DisconnectOk(s, s.disconnects[d]) && s.timer.None?;
    ReturnedState(s, d, reconnecting);
    hide ResumeDisconnect, DisconnectOk;
    NoAttempt(s);
  }

  /** At most one attempt at a time, however many callers: each of them gets the promise of that one. */
  lemma AtMostOneAttempt(acts: seq<Action>, a: int, b: int)
    requires Execute(acts).Some? && a in Execute(acts).value.attempts && b in Execute(acts).value.attempts
    ensures a == b && Execute(acts).value.promise == Some(a)
    ensures Connect(Execute(acts).value) == Execute(acts).value
  {
    hide Execute;
    AlwaysInv(acts);
  }

  /** An attempt of an ended lifecycle changes nothing a user can see. */
  predicate Inert(s: State, t: State) {
    && (t.session == s.session || t.session.None?)
    && t.isConnected == s.isConnected
    && t.timer == s.timer
    && t.errors == s.errors
  }

  lemma AbortedThrowIsInert(s: State, id: int, a: Attempt)
    requires Aborted(s, a.life)
    ensures Inert(s, Throw(s, id, a)) && Begin(s, id, a) == Throw(s, id, a)
  {
  }

  /** Whatever such an attempt was waiting for, and however that ended. */
  lemma DisposeIsInert(s: State, c: Option<int>)
    ensures Inert(s, Dispose(s, c))
  {
  }

  lemma FinallyIsInert(s: State, id: int)
    ensures forall ok :: Inert(s, Finally(s, id, ok))
  {
  }

  lemma AbortedAttemptIsInert(s: State, id: int, resolved: bool)
    requires id in s.attempts && Aborted(s, s.attempts[id].life)
    ensures Inert(s, ResumeAttempt(s, id, resolved))
  {
    hide Throw, Begin, Dispose, CloseSession, Finally;
    var a := s.attempts[id];
    AbortedThrowIsInert(s, id, a);
    FinallyIsInert(s, id);
    match a.pc
    case ClosingPrevious(p) => DisposeIsInert(s, Some(p));
    case DisposingPrevious(_) => AbortedThrowIsInert(s.(client := None, session := None), id, a);
    case CreatingSession =>
      DisposeIsInert(s, a.client);
      AbortedThrowIsInert(s.(sessions := s.sessions + 1), id, a.(session := Some(s.sessions)));
    case DisposingRefused => AbortedThrowIsInert(s.(client := None), id, a);
    case ClosingAborted => DisposeIsInert(s, a.client);
    case _ =>
  }

  /** A retry loop or a timer of an ended lifecycle does not even call `connect()`. */
  lemma AbortedLoopAndTimerAreInert(s: State, retry: bool)
    ensures s.loop.Some? && Aborted(s, s.loop.value.life) ==>
              && Inert(s, ResumeLoop(s, retry))
              && ResumeLoop(s, retry) == s.(loop := ResumeLoop(s, retry).loop)
              && (!s.loop.value.pc.AwaitingConnect? ==> ResumeLoop(s, retry).loop.None?)
    ensures s.timer.Some? && Aborted(s, s.timer.value) ==> FireTimer(s) == s.(timer := None)
  {
  }

  /** An aborted attempt settles only after disposing its client and closing the session it opened. */
  lemma AbortedAttemptGivesBack(acts: seq<Action>, id: int)
    requires Execute(acts).Some? && id in Execute(acts).value.attempts
    requires Execute(acts).value.attempts[id].pc.Released?
    ensures GivenBack(Execute(acts).value, Execute(acts).value.attempts[id])
  {
    hide Execute;
    AlwaysInv(acts);
    var s := Execute(acts).value;
    assert AttemptOk(s, s.attempts[id]);
  }

  lemma AbortedThrowReleases(s: State, id: int, a: Attempt)
    requires Aborted(s, a.life)
    ensures Begin(s, id, a) == Throw(s, id, a)
    ensures var t := Throw(s, id, a);
            id in t.attempts && t.attempts[id].life == a.life && !t.attempts[id].pc.Settled?
  {
  }

  /** An attempt aborted before it settled can settle no other way. */
  lemma AbortedAttemptOnlyReleases(s: State, id: int, resolved: bool)
    requires id in s.attempts && Aborted(s, s.attempts[id].life) && !s.attempts[id].pc.Settled?
    ensures var t := ResumeAttempt(s, id, resolved);
            id in t.attempts ==> t.attempts[id].life == s.attempts[id].life && !t.attempts[id].pc.Settled?
    ensures id !in ResumeAttempt(s, id, resolved).attempts ==> s.attempts[id].pc.Released?
  {
    hide Begin, Throw;
    var a := s.attempts[id];
    AbortedThrowReleases(s, id, a);
    match a.pc
    case DisposingPrevious(_) => AbortedThrowReleases(s.(client := None, session := None), id, a);
    case CreatingSession => AbortedThrowReleases(s.(sessions := s.sessions + 1), id, a.(session := Some(s.sessions)));
    case DisposingRefused => AbortedThrowReleases(s.(client := None), id, a);
    case _ =>
  }

  // ----- delays

  function Min(a: int, b: int): int {
    if a < b then a else b
  }

  function Max(a: int, b: int): int {
    if a > b then a else b
  }

  function Pow2(n: nat): nat {
    if n == 0 then 1 else 2 * Pow2(n - 1)
  }

  const BACKGROUND_RECONNECT_MAX_DELAY_MS := 60000

  function BackgroundReconnectDelay(reconnectDelay: nat, attempt: nat): int
    requires attempt > 0
  {
    Min(reconnectDelay * Pow2(if attempt - 1 < 16 then attempt - 1 else 16),
        Max(BACKGROUND_RECONNECT_MAX_DELAY_MS, reconnectDelay))
  }

  lemma {:induction false} Pow2Grows(n: nat, m: nat)
    requires n <= m
    ensures 0 < Pow2(n) <= Pow2(m)
  {
    if n < m {
      Pow2Grows(n, m - 1);
    } else if n > 0 {
      Pow2Grows(n - 1, n - 1);
    }
  }

  /** The background delay never shrinks, never goes below the configured one, and settles at a minute or at it. */
  lemma BackgroundDelayGrows(reconnectDelay: nat, attempt: nat)
    requires attempt > 0
    ensures var d := BackgroundReconnectDelay(reconnectDelay, attempt);
            && reconnectDelay <= d <= BackgroundReconnectDelay(reconnectDelay, attempt + 1)
            && d <= Max(BACKGROUND_RECONNECT_MAX_DELAY_MS, reconnectDelay)
  {
    var e := if attempt - 1 < 16 then attempt - 1 else 16;
    var f := if attempt < 16 then attempt else 16;
    Pow2Grows(e, f);
    Pow2Grows(0, e);
    assert reconnectDelay * Pow2(e) >= reconnectDelay * 1;
    assert reconnectDelay * (Pow2(f) - Pow2(e)) >= 0;
  }

  /** The delays handed to node-opcua: the first one and the largest one. */
  function ConnectionStrategy(reconnectDelay: nat): (int, int) {
    var maxDelay := Max(reconnectDelay, 2);
    (Min(1000, maxDelay / 2), maxDelay)
  }

  /** They always satisfy its demand that the largest exceeds the first. */
  lemma ConnectionStrategyIsAccepted(reconnectDelay: nat)
    ensures 0 < ConnectionStrategy(reconnectDelay).0 < ConnectionStrategy(reconnectDelay).1
  {
  }

  /** The first background delay is the configured one; each later one is twice the one before, up to the limit. */
  lemma BackgroundDelayDoubles(reconnectDelay: nat, attempt: nat)
    requires attempt > 0
    ensures BackgroundReconnectDelay(reconnectDelay, 1) == reconnectDelay
    ensures BackgroundReconnectDelay(reconnectDelay, attempt + 1)
         == if attempt > 16 then BackgroundReconnectDelay(reconnectDelay, attempt)
            else Min(2 * BackgroundReconnectDelay(reconnectDelay, attempt), Max(60_000, reconnectDelay))
  {
    assert Pow2(0) == 1;
    hide Pow2;
    if attempt <= 16 {
      TwiceAsLong(reconnectDelay, attempt - 1);
    }
  }

  lemma TwiceAsLong(reconnectDelay: nat, e: nat)
    ensures reconnectDelay * Pow2(e + 1) == 2 * (reconnectDelay * Pow2(e))
  {
    var p := Pow2(e);
    assert Pow2(e + 1) == 2 * p;
    hide Pow2;
    assert reconnectDelay * (2 * p) == 2 * (reconnectDelay * p);
  }

  /** The largest delay is the configured one, at least 2; the first is half of it, at most a second. */
  lemma ConnectionStrategyValues(reconnectDelay: nat)
    ensures reconnectDelay >= 2000 ==> ConnectionStrategy(reconnectDelay) == (1000, reconnectDelay)
    ensures 2 <= reconnectDelay < 2000 ==> ConnectionStrategy(reconnectDelay) == (reconnectDelay / 2, reconnectDelay)
    ensures reconnectDelay < 2 ==> ConnectionStrategy(reconnectDelay) == (1, 2)
  {
  }
}
