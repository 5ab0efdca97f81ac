/**
 What the connection machine achieves: attempts whose awaits are resolved connect, rejected ones end with
 one error and a timer, retries begin new attempts, and disconnects come to an end.
 */
module ClientProgress {
  import opened Wrappers
  import opened ClientManager

  // ----- open for as long as it is needed

  /** Sessions are numbered from 0, and only sessions that exist are held or closed. */
  ghost predicate SessionsExist(s: State) {
    Numbered(s.closed, s.session, s.sessions, s.attempts)
  }

  ghost predicate Numbered(closed: set<int>, session: Option<int>, sessions: int, attempts: map<int, Attempt>) {
    && (forall n :: n in closed ==> 0 <= n < sessions)
    && (session.Some? ==> 0 <= session.value < sessions)
    && (forall id :: id in attempts && attempts[id].session.Some? ==> 0 <= attempts[id].session.value < sessions)
  }

  predicate BuildsOn(pc: AttemptPc) {
    pc.Preparing? || pc.Connecting? || pc.CreatingSession?
  }

  /** The client a live attempt is building on has not been given up. */
  ghost predicate ClientsOpen(s: State) {
    NotGivenUp(s.attempts, s.life, s.disposed)
  }

  ghost predicate NotGivenUp(attempts: map<int, Attempt>, life: int, disposed: set<int>) {
    forall id :: id in attempts && BuildsOn(attempts[id].pc) && attempts[id].life >= life ==>
      attempts[id].client.Some? && attempts[id].client.value !in disposed
  }

  ghost predicate Sound(s: State) {
    Inv(s) && SessionsExist(s) && ClientsOpen(s)
  }

  /** What an attempt's record must look like for the state to stay sound. */
  predicate RecordFits(s: State, a: Attempt) {
    && (a.session.Some? ==> 0 <= a.session.value < s.sessions)
    && (BuildsOn(a.pc) && !Aborted(s, a.life) ==> a.client.Some? && a.client.value !in s.disposed)
  }

  lemma AtFits(s: State, id: int, a: Attempt)
    requires SessionsExist(s) && s.attempts.Keys <= {id} && RecordFits(s, a)
    ensures SessionsExist(At(s, id, a)) && ClientsOpen(At(s, id, a))
  {
  }

  lemma DisposeFits(s: State, c: Option<int>)
    requires SessionsExist(s)
    ensures var t := Dispose(s, c);
            SessionsExist(t) && t.attempts == s.attempts && t.life == s.life && t.sessions == s.sessions
  {
  }

  lemma CloseSessionFits(s: State, n: Option<int>)
    requires SessionsExist(s) && (n.Some? ==> 0 <= n.value < s.sessions)
    ensures var t := CloseSession(s, n);
            SessionsExist(t) && t.attempts == s.attempts && t.life == s.life && t.sessions == s.sessions
            && t.disposed == s.disposed
  {
  }

  lemma ThrowFits(s: State, id: int, a: Attempt)
    requires SessionsExist(s) && s.attempts.Keys <= {id} && (a.session.Some? ==> 0 <= a.session.value < s.sessions)
    ensures SessionsExist(Throw(s, id, a)) && ClientsOpen(Throw(s, id, a))
  {
    hide At, Dispose, CloseSession, Numbered, NotGivenUp;
    DisposeFits(s, a.client);
    CloseSessionFits(s, a.session);
    if Aborted(s, a.life) {
      AtFits(CloseSession(s, a.session), id, a.(pc := ClosingAborted));
      AtFits(Dispose(s, a.client), id, a.(pc := DisposingAborted));
    } else {
      ErrorFits(s);
      AtFits(ScheduleReconnect(s.(errors := s.errors + 1)), id, a.(pc := Settled(false)));
    }
  }

  lemma ErrorFits(s: State)
    requires SessionsExist(s)
    ensures SessionsExist(ScheduleReconnect(s.(errors := s.errors + 1)))
  {
  }

  lemma BeginFits(s: State, id: int, a: Attempt)
    requires SessionsExist(s) && s.attempts.Keys <= {id} && s.clients !in s.disposed && a.session.None?
    ensures SessionsExist(Begin(s, id, a)) && ClientsOpen(Begin(s, id, a))
  {
    ThrowFits(s, id, a);
    NewClientFits(s);
    hide At, Throw, Numbered, NotGivenUp;
    var c := s.clients;
    AtFits(s.(clients := c + 1, client := Some(c)), id, a.(client := Some(c), pc := Preparing));
  }

  lemma NewClientFits(s: State)
    requires SessionsExist(s)
    ensures SessionsExist(s.(clients := s.clients + 1, client := Some(s.clients)))
    ensures SessionsExist(s.(client := None, session := None)) && SessionsExist(s.(client := None))
  {
  }

  lemma FinallyFits(s: State, id: int, ok: bool)
    requires SessionsExist(s) && ClientsOpen(s)
    ensures SessionsExist(Finally(s, id, ok)) && ClientsOpen(Finally(s, id, ok))
  {
  }

  lemma SessionOpenedFits(s: State)
    requires SessionsExist(s) && s.sessions >= 0
    ensures var after := s.(sessions := s.sessions + 1);
            SessionsExist(after) && SessionsExist(after.(session := Some(s.sessions), isConnected := true))
  {
  }

  lemma AttemptFits(s: State, id: int)
    requires Sound(s) && id in s.attempts
    ensures s.attempts.Keys == {id} && RecordFits(s, s.attempts[id])
    ensures s.clients !in s.disposed && s.sessions >= 0
    ensures s.attempts[id].pc.DisposingPrevious? ==> s.attempts[id].session.None?
  {
    OneAttempt(s, id);
  }

  /** The awaits of the connection itself. */
  lemma BuildingFits(s: State, id: int, resolved: bool)
    requires SessionsExist(s) && s.attempts.Keys == {id} && RecordFits(s, s.attempts[id])
    requires s.sessions >= 0 && BuildsOn(s.attempts[id].pc)
    ensures SessionsExist(ResumeAttempt(s, id, resolved)) && ClientsOpen(ResumeAttempt(s, id, resolved))
  {
    hide Numbered, NotGivenUp, At, Dispose, CloseSession, Throw;
    var a := s.attempts[id];
    ThrowFits(s, id, a);
    match a.pc
    case Preparing =>
      if !Aborted(s, a.life) {
        AtFits(s, id, a.(pc := Connecting));
      }
    case Connecting =>
      if !Aborted(s, a.life) {
        AtFits(s, id, a.(pc := CreatingSession));
      }
    case CreatingSession =>
      DisposeFits(s, a.client);
      AtFits(Dispose(s, a.client), id, a.(pc := DisposingRefused));
      SessionOpenedFits(s);
      var n := s.sessions;
      var after := s.(sessions := n + 1);
      ThrowFits(after, id, a.(session := Some(n)));
      AtFits(after.(session := Some(n), isConnected := true), id, a.(session := Some(n), pc := Settled(true)));
  }

  /** The awaits of giving something up. */
  lemma GivingUpFits(s: State, id: int, resolved: bool)
    requires SessionsExist(s) && s.attempts.Keys == {id} && RecordFits(s, s.attempts[id])
    requires s.clients !in s.disposed && !BuildsOn(s.attempts[id].pc)
    requires s.attempts[id].pc.DisposingPrevious? ==> s.attempts[id].session.None?
    requires !s.attempts[id].pc.Settled? && !s.attempts[id].pc.Released?
    ensures SessionsExist(ResumeAttempt(s, id, resolved)) && ClientsOpen(ResumeAttempt(s, id, resolved))
  {
    hide Numbered, NotGivenUp, At, Dispose, Throw, Begin;
    var a := s.attempts[id];
    NewClientFits(s);
    match a.pc
    case ClosingPrevious(p) =>
      DisposeFits(s, Some(p));
      AtFits(Dispose(s, Some(p)), id, a.(pc := DisposingPrevious(p)));
    case DisposingPrevious(p) =>
      BeginFits(s, id, a);
      BeginFits(s.(client := None, session := None), id, a);
    case DisposingRefused =>
      ThrowFits(s, id, a);
      ThrowFits(s.(client := None), id, a);
    case ClosingAborted =>
      DisposeFits(s, a.client);
      AtFits(Dispose(s, a.client), id, a.(pc := DisposingAborted));
    case DisposingAborted =>
      AtFits(s, id, a.(pc := Released));
      AtFits(s.(client := None, session := None), id, a.(pc := Released));
  }

  lemma ResumeAttemptSound(s: State, id: int, resolved: bool)
    requires Sound(s) && id in s.attempts
    ensures SessionsExist(ResumeAttempt(s, id, resolved)) && ClientsOpen(ResumeAttempt(s, id, resolved))
  {
    AttemptFits(s, id);
    hide Inv, Numbered, NotGivenUp, Finally, RecordFits;
    match s.attempts[id].pc
    case Settled(ok) => FinallyFits(s, id, ok);
    case Released => FinallyFits(s, id, false);
    case _ =>
      hide ResumeAttempt;
      if BuildsOn(s.attempts[id].pc) {
        BuildingFits(s, id, resolved);
      } else {
        GivingUpFits(s, id, resolved);
      }
  }

  lemma StartFits(s: State)
    requires SessionsExist(s) && s.attempts == map[] && s.clients !in s.disposed
    ensures SessionsExist(Start(s)) && ClientsOpen(Start(s))
  {
    hide Numbered, NotGivenUp, At, Dispose, CloseSession, Begin;
    var id := s.started;
    var a := Attempt(s.life, None, None, Preparing);
    var s1 := s.(started := id + 1, promise := Some(id));
    HeldExists(s);
    DisposeFits(s1, s.client);
    CloseSessionFits(s1, s.session);
    BeginFits(s1, id, a);
    if s.client.Some? {
      AtFits(CloseSession(s1, s.session), id, a.(pc := ClosingPrevious(s.client.value)));
      AtFits(Dispose(s1, s.client), id, a.(pc := DisposingPrevious(s.client.value)));
    }
  }

  lemma HeldExists(s: State)
    requires SessionsExist(s)
    ensures s.session.Some? ==> 0 <= s.session.value < s.sessions
    ensures forall id :: id in s.attempts && s.attempts[id].session.Some? ==>
              0 <= s.attempts[id].session.value < s.sessions
    ensures SessionsExist(s.(session := None))
  {
  }

  lemma ConnectFits(s: State)
    requires SessionsExist(s) && ClientsOpen(s) && s.clients !in s.disposed && (s.promise.None? ==> s.attempts == map[])
    ensures SessionsExist(Connect(s)) && ClientsOpen(Connect(s))
  {
    hide Start, Numbered, NotGivenUp;
    if s.promise.None? {
      StartFits(s);
    }
  }

  /** With every lifecycle in progress ended, only the sessions matter. */
  lemma AllAborted(s: State)
    requires forall id :: id in s.attempts ==> Aborted(s, s.attempts[id].life)
    ensures ClientsOpen(s)
  {
  }

  lemma WaitingFits(s: State, d: int, pc: DisconnectPc)
    requires SessionsExist(s)
    ensures var t := Waiting(s, d, pc); SessionsExist(t) && t.attempts == s.attempts && t.life == s.life
    ensures var t := Return(s, d); SessionsExist(t) && t.attempts == s.attempts && t.life == s.life
  {
  }

  lemma AfterAttemptFits(s: State, d: int, reconnecting: bool)
    requires SessionsExist(s)
    ensures var t := AfterAttempt(s, d, reconnecting); SessionsExist(t) && t.attempts == s.attempts && t.life == s.life
    ensures var t := DisposeLast(s, d); SessionsExist(t) && t.attempts == s.attempts && t.life == s.life
  {
    DisposeFits(s, s.client);
    hide Numbered, Dispose, Waiting, Return;
    WaitingFits(Dispose(s, s.client), d, DisposingOffline);
    WaitingFits(Dispose(s, s.client), d, DisposingFinal);
    WaitingFits(s, d, Terminating);
  }

  lemma StartDisconnectSound(s: State, reconnecting: bool)
    requires Sound(s)
    ensures SessionsExist(StartDisconnect(s, reconnecting)) && ClientsOpen(StartDisconnect(s, reconnecting))
  {
    NoLaterLife(s);
    hide Inv, Numbered, NotGivenUp, Waiting, Dispose, AfterAttempt;
    var s1 := s.(calls := s.calls + 1, life := s.life + 1, timer := None);
    DisposeFits(s1, s.client);
    WaitingFits(Dispose(s1, s.client), s.calls, DisposingInFlight);
    AfterAttemptFits(s1, s.calls, reconnecting);
    AllAborted(StartDisconnect(s, reconnecting));
  }

  lemma NoLaterLife(s: State)
    requires Inv(s)
    ensures forall id :: id in s.attempts ==> s.attempts[id].life <= s.life
  {
    assert forall id :: id in s.attempts ==> AttemptOk(s, s.attempts[id]);
  }

  lemma ResumeDisconnectSound(s: State, d: int, reconnecting: bool)
    requires Sound(s) && d in s.disconnects
    ensures SessionsExist(ResumeDisconnect(s, d, reconnecting)) && ClientsOpen(ResumeDisconnect(s, d, reconnecting))
  {
    DisconnectMeansAborted(s, d);
    ResumeDisconnectFits(s, d, reconnecting);
    DisconnectLeavesAttempts(s, d, reconnecting);
    hide Inv, ResumeDisconnect, SessionsExist, ClientsOpen;
    AllAborted(ResumeDisconnect(s, d, reconnecting));
  }

  lemma DisconnectMeansAborted(s: State, d: int)
    requires Inv(s) && d in s.disconnects
    ensures forall id :: id in s.attempts ==> Aborted(s, s.attempts[id].life)
  {
  }

  lemma ResumeDisconnectFits(s: State, d: int, reconnecting: bool)
    requires SessionsExist(s) && d in s.disconnects
    ensures SessionsExist(ResumeDisconnect(s, d, reconnecting))
  {
    HeldExists(s);
    hide Numbered, Waiting, Dispose, AfterAttempt, DisposeLast, CloseSession, Return;
    match s.disconnects[d]
    case DisposingInFlight =>
      AfterAttemptFits(s, d, reconnecting);
      if s.promise.Some? {
        WaitingFits(s, d, AwaitingAttempt(s.promise.value));
      }
    case AwaitingAttempt(_) => AfterAttemptFits(s, d, reconnecting);
    case DisposingOffline => WaitingFits(s, d, Terminating);
    case Terminating =>
      CloseSessionFits(s, s.session);
      AfterAttemptFits(s, d, reconnecting);
      WaitingFits(CloseSession(s, s.session), d, ClosingSession);
    case ClosingSession => AfterAttemptFits(s.(session := None), d, reconnecting);
    case DisposingFinal => WaitingFits(s.(client := None), d, Terminating);
  }

  lemma ReadyToConnect(s: State)
    requires Inv(s)
    ensures s.clients !in s.disposed && (s.promise.None? ==> s.attempts == map[])
  {
  }

  lemma LoopConnectFits(s: State, life: int)
    requires SessionsExist(s) && ClientsOpen(s) && s.clients !in s.disposed && (s.promise.None? ==> s.attempts == map[])
    ensures SessionsExist(LoopConnect(s, life)) && ClientsOpen(LoopConnect(s, life))
  {
    ConnectFits(s);
    hide Connect, Numbered, NotGivenUp;
  }

  /** Whatever a step is besides a resumption or a disconnect: it changes other fields, or calls `connect()`. */
  lemma OtherStepFits(s: State, act: Action)
    requires SessionsExist(s) && ClientsOpen(s) && s.clients !in s.disposed && (s.promise.None? ==> s.attempts == map[])
    requires Possible(s, act) && !act.CallDisconnect? && !act.ResumesAttempt? && !act.ResumesDisconnect?
    ensures SessionsExist(Step(s, act)) && ClientsOpen(Step(s, act))
  {
    var lost := s.(isConnected := false);
    hide Connect, LoopConnect, Numbered, NotGivenUp;
    match act
    case CallConnect => ConnectFits(s);
    case CallReconnect(_, _) => LoopConnectFits(lost, s.life);
    case ResumesLoop(_) => LoopConnectFits(s, s.loop.value.life);
    case TimerFires => ConnectFits(s.(timer := None));
    case Reconnected => ConnectFits(lost);
    case RepairEnds(_) => ConnectFits(s.(repair := None, isConnected := false));
    case _ =>
  }

  /** Every allowed step keeps what attempts build on open. */
  lemma StepSound(s: State, act: Action)
    requires Sound(s) && Allowed(s, act)
    ensures Sound(Step(s, act))
  {
    StepInv(s, act);
    ReadyToConnect(s);
    hide Inv, SessionsExist, ClientsOpen, StartDisconnect, ResumeAttempt, ResumeDisconnect;
    match act
    case CallDisconnect(reconnecting) => StartDisconnectSound(s, reconnecting);
    case ResumesAttempt(id, resolved) => ResumeAttemptSound(s, id, resolved);
    case ResumesDisconnect(d, reconnecting) => ResumeDisconnectSound(s, d, reconnecting);
    case _ =>
      OtherStepFits(s, act);
      hide Step;
  }

  lemma InitialSound()
    ensures Sound(INITIAL)
  {
    InitialInv();
  }

  lemma {:induction false} AlwaysSound(acts: seq<Action>)
    requires Execute(acts).Some?
    ensures Sound(Execute(acts).value)
  {
    hide Sound, Allowed, Step;
    InitialSound();
    if acts != [] {
      AlwaysSound(acts[..|acts| - 1]);
      StepSound(Execute(acts[..|acts| - 1]).value, acts[|acts| - 1]);
    }
  }

  // ----- an attempt that succeeds

  /** The state says connected, through this attempt's own client and session, both of them open. */
  predicate ConnectedThrough(s: State, a: Attempt) {
    && s.isConnected
    && s.session.Some? && s.session == a.session && s.session.value !in s.closed
    && s.client.Some? && s.client == a.client && s.client.value !in s.disposed
  }

  /** The step that makes an attempt succeed, in any run, leaves the manager connected through it. */
  lemma SuccessConnects(acts: seq<Action>, id: int, resolved: bool)
    requires Execute(acts).Some? && Allowed(Execute(acts).value, ResumesAttempt(id, resolved))
    requires !Execute(acts).value.attempts[id].pc.Settled?
    requires var t := Step(Execute(acts).value, ResumesAttempt(id, resolved));
             id in t.attempts && t.attempts[id].pc == Settled(true)
    ensures var s := Execute(acts).value;
            var t := Step(s, ResumesAttempt(id, resolved));
            && ConnectedThrough(t, t.attempts[id]) && resolved && !Aborted(t, t.attempts[id].life)
            && t.session == Some(s.sessions) && t.errors == s.errors
  {
    hide Execute;
    AlwaysSound(acts);
    var s := Execute(acts).value;
    SuccessIsLast(s, id, resolved);
    OneAttempt(s, id);
    assert s.sessions !in s.closed;
    assert RecordFits(s, s.attempts[id]);
  }

  lemma SuccessIsLast(s: State, id: int, resolved: bool)
    requires id in s.attempts && !s.attempts[id].pc.Settled?
    requires var t := ResumeAttempt(s, id, resolved); id in t.attempts && t.attempts[id].pc == Settled(true)
    ensures s.attempts[id].pc.CreatingSession? && resolved && !Aborted(s, s.attempts[id].life)
  {
    hide Dispose, CloseSession, ScheduleReconnect;
  }

  /** In any run an attempt may always go on, whatever it awaits and however that ends. */
  lemma AttemptMayGoOn(acts: seq<Action>, id: int, resolved: bool)
    requires Execute(acts).Some? && id in Execute(acts).value.attempts
    ensures Allowed(Execute(acts).value, ResumesAttempt(id, resolved))
  {
    hide Execute, ResumeAttempt;
    AlwaysInv(acts);
    HasPromise(Execute(acts).value, id);
    AttemptKeepsPlaces(Execute(acts).value, id, resolved);
    hide Inv;
  }

  /** How many awaits a connect attempt has still before it. */
  function Awaits(pc: AttemptPc): nat {
    match pc
    case ClosingPrevious(_) => 5
    case DisposingPrevious(_) => 4
    case Preparing => 3
    case Connecting => 2
    case CreatingSession => 1
    case _ => 0
  }

  /** In flight, not ended by a disconnect. */
  predicate InFlight(s: State, id: int) {
    id in s.attempts && !Aborted(s, s.attempts[id].life)
  }

  /** Each resolved await brings the attempt one further, without an error; the last one is its success. */
  lemma ResolvedAwait(s: State, id: int)
    requires InFlight(s, id) && s.usable && Awaits(s.attempts[id].pc) > 0
    ensures var t := ResumeAttempt(s, id, true);
            && InFlight(t, id) && Awaits(t.attempts[id].pc) == Awaits(s.attempts[id].pc) - 1
            && (Awaits(s.attempts[id].pc) == 1 ==> t.attempts[id].pc == Settled(true))
            && t.errors == s.errors && t.usable == s.usable && t.timer == s.timer
  {
    hide CloseSession;
  }

  /** Ended with one more error, and a timer armed to try again. */
  predicate FailedOnce(s: State, t: State, id: int) {
    InFlight(t, id) && t.attempts[id].pc == Settled(false) && t.errors == s.errors + 1 && t.timer.Some?
  }

  /** A rejected await ends the attempt; a refused session does so once the client has been disposed. */
  lemma RejectedAwait(s: State, id: int)
    requires InFlight(s, id) && BuildsOn(s.attempts[id].pc) && s.attempts[id].client.Some?
    ensures var t := ResumeAttempt(s, id, false);
            if s.attempts[id].pc.CreatingSession? then
              && InFlight(t, id) && t.attempts[id].pc.DisposingRefused?
              && t.errors == s.errors && s.attempts[id].client.value in t.disposed && t.isConnected == s.isConnected
            else FailedOnce(s, t, id) && t.isConnected == s.isConnected
  {
    hide CloseSession;
  }

  lemma RefusedAwait(s: State, id: int, resolved: bool)
    requires InFlight(s, id) && s.attempts[id].pc.DisposingRefused?
    ensures var t := ResumeAttempt(s, id, resolved);
            && FailedOnce(s, t, id) && (s.client == s.attempts[id].client ==> t.client.None?)
            && t.disposed == s.disposed && t.isConnected == s.isConnected
  {
    hide CloseSession, Dispose;
  }

  predicate SameAttempts(s: State, t: State) {
    && t.attempts == s.attempts && t.errors == s.errors && t.usable == s.usable && t.life == s.life
    && t.timer == s.timer && t.loop == s.loop && t.promise == s.promise && t.calls == s.calls
  }

  lemma PiecesLeaveAttempts(s: State, c: Option<int>, d: int, pc: DisconnectPc)
    ensures SameAttempts(s, Dispose(s, c)) && SameAttempts(s, CloseSession(s, c)) && SameAttempts(s, Waiting(s, d, pc))
    ensures SameAttempts(s, Return(s, d))
  {
  }

  lemma AfterAttemptLeavesAttempts(s: State, d: int, reconnecting: bool)
    ensures SameAttempts(s, AfterAttempt(s, d, reconnecting)) && SameAttempts(s, DisposeLast(s, d))
  {
    hide Dispose, Waiting, Return;
    PiecesLeaveAttempts(s, s.client, d, Terminating);
    PiecesLeaveAttempts(Dispose(s, s.client), None, d, DisposingOffline);
    PiecesLeaveAttempts(Dispose(s, s.client), None, d, DisposingFinal);
  }

  lemma StartDisconnectLeavesAttempts(s: State, reconnecting: bool)
    ensures var t := StartDisconnect(s, reconnecting);
            && t.attempts == s.attempts && t.errors == s.errors && t.usable == s.usable && t.life == s.life + 1
            && t.loop == s.loop && t.promise == s.promise
  {
    hide Dispose, Waiting, AfterAttempt;
    var s1 := s.(calls := s.calls + 1, life := s.life + 1, timer := None);
    AfterAttemptLeavesAttempts(s1, s.calls, reconnecting);
    PiecesLeaveAttempts(s1, s.client, s.calls, DisposingInFlight);
    PiecesLeaveAttempts(Dispose(s1, s.client), None, s.calls, DisposingInFlight);
  }

  lemma DisconnectLeavesAttempts(s: State, d: int, reconnecting: bool)
    requires d in s.disconnects
    ensures SameAttempts(s, ResumeDisconnect(s, d, reconnecting))
  {
    hide CloseSession, Waiting, Return, AfterAttempt, DisposeLast;
    match s.disconnects[d]
    case DisposingInFlight =>
      AfterAttemptLeavesAttempts(s, d, reconnecting);
      if s.promise.Some? {
        PiecesLeaveAttempts(s, None, d, AwaitingAttempt(s.promise.value));
      }
    case AwaitingAttempt(_) => AfterAttemptLeavesAttempts(s, d, reconnecting);
    case DisposingOffline => PiecesLeaveAttempts(s, None, d, Terminating);
    case Terminating =>
      AfterAttemptLeavesAttempts(s, d, reconnecting);
      PiecesLeaveAttempts(s, s.session, d, ClosingSession);
      PiecesLeaveAttempts(CloseSession(s, s.session), None, d, ClosingSession);
    case ClosingSession => AfterAttemptLeavesAttempts(s.(session := None), d, reconnecting);
    case DisposingFinal => PiecesLeaveAttempts(s.(client := None), None, d, Terminating);
  }

  /** With an attempt in flight, `connect()` hands out its promise and does nothing else. */
  lemma ConnectOnlyAwaits(s: State)
    requires s.promise.Some?
    ensures Connect(s) == s
    ensures forall life ::
              var t := LoopConnect(s, life);
              && t.attempts == s.attempts && t.errors == s.errors && t.usable == s.usable && t.life == s.life
              && t.timer == s.timer
  {
  }

  /** Nothing but its own awaits moves an attempt that is in flight, and only a disconnect ends its lifecycle. */
  lemma OthersLeaveAttempt(s: State, act: Action, id: int)
    requires Inv(s) && Possible(s, act) && id in s.attempts && !(act.ResumesAttempt? && act.id == id)
    ensures var t := Step(s, act);
            && t.attempts == s.attempts && t.errors == s.errors
            && (!act.CallDisconnect? ==> t.life == s.life)
            && (act != FilesChange(false) && s.usable ==> t.usable)
            && (!act.CallDisconnect? && act != TimerFires && s.timer.Some? ==> t.timer.Some?)
  {
    HasPromise(s, id);
    match act
    case CallDisconnect(reconnecting) =>
      hide Inv, StartDisconnect;
      StartDisconnectLeavesAttempts(s, reconnecting);
    case ResumesDisconnect(d, reconnecting) =>
      hide Inv, ResumeDisconnect;
      DisconnectLeavesAttempts(s, d, reconnecting);
    case _ =>
      hide Inv, Step;
      OthersOnlyAwait(s, act, id);
  }

  lemma HasPromise(s: State, id: int)
    requires Inv(s) && id in s.attempts
    ensures s.promise == Some(id) && s.attempts.Keys == {id}
  {
  }

  predicate SameFlight(s: State, t: State) {
    && t.attempts == s.attempts && t.errors == s.errors && t.life == s.life
    && t.usable == s.usable && t.timer == s.timer
  }

  lemma ReconnectsOnlyAwait(s: State, cooldown: bool, stopped: bool, retry: bool)
    requires s.promise.Some?
    ensures SameFlight(s, Reconnect(s, cooldown, stopped))
    ensures s.loop.Some? ==> SameFlight(s, ResumeLoop(s, retry))
  {
    hide LoopConnect;
    ConnectOnlyAwaits(s.(isConnected := false));
    ConnectOnlyAwaits(s);
  }

  lemma EventsOnlyAwait(s: State, sessionClosed: bool)
    requires s.promise.Some?
    ensures s.client.Some? ==> SameFlight(s, AfterReconnection(s))
    ensures s.repair.Some? ==> SameFlight(s, FinishRepair(s, sessionClosed))
    ensures s.timer.Some? ==> SameFlight(s.(timer := None), FireTimer(s))
  {
    hide Connect;
    ConnectOnlyAwaits(s.(isConnected := false));
    ConnectOnlyAwaits(s.(repair := None, isConnected := false));
    ConnectOnlyAwaits(s.(timer := None));
  }

  lemma OthersOnlyAwait(s: State, act: Action, id: int)
    requires Possible(s, act) && s.promise.Some? && !act.CallDisconnect? && !act.ResumesDisconnect?
    requires s.attempts.Keys == {id} && !(act.ResumesAttempt? && act.id == id)
    ensures var t := Step(s, act);
            && t.attempts == s.attempts && t.errors == s.errors && t.life == s.life
            && (act != FilesChange(false) && s.usable ==> t.usable)
            && (act != TimerFires && s.timer.Some? ==> t.timer.Some?)
  {
    hide Connect, Reconnect, ResumeLoop, AfterReconnection, FinishRepair, FireTimer;
    match act
    case CallConnect => ConnectOnlyAwaits(s);
    case CallReconnect(cooldown, stopped) => ReconnectsOnlyAwait(s, cooldown, stopped, false);
    case ResumesLoop(retry) => ReconnectsOnlyAwait(s, false, false, retry);
    case TimerFires => EventsOnlyAwait(s, false);
    case Reconnected => EventsOnlyAwait(s, false);
    case RepairEnds(sessionClosed) => EventsOnlyAwait(s, sessionClosed);
    case _ =>
  }

  // ----- over runs

  /** A run can be cut anywhere. */
  lemma RunPrefix(acts: seq<Action>, act: Action)
    ensures Execute(acts + [act]).Some? ==>
              && Execute(acts).Some? && Allowed(Execute(acts).value, act)
              && Execute(acts + [act]).value == Step(Execute(acts).value, act)
  {
    hide Allowed, Step;
    assert (acts + [act])[..|acts|] == acts;
  }

  lemma {:induction false} RunStarts(acts: seq<Action>, more: seq<Action>)
    requires Execute(acts + more).Some?
    ensures Execute(acts).Some?
  {
    hide Allowed, Step;
    if more == [] {
      assert acts + more == acts;
    } else {
      var init := more[..|more| - 1];
      assert acts + more == acts + init + [more[|more| - 1]];
      RunPrefix(acts + init, more[|more| - 1]);
      RunStarts(acts, init);
    }
  }

  /** How often this attempt goes on. */
  function Resumptions(acts: seq<Action>, id: int): nat {
    if acts == [] then 0
    else
      var last := acts[|acts| - 1];
      Resumptions(acts[..|acts| - 1], id) + (if last.ResumesAttempt? && last.id == id then 1 else 0)
  }

  /** Nobody disconnects, the configured files stay readable, and what this attempt awaits is resolved. */
  predicate Favourable(acts: seq<Action>, id: int) {
    forall act :: act in acts ==>
      !act.CallDisconnect? && act != FilesChange(false) && act != ResumesAttempt(id, false)
  }

  /**
   An attempt whose awaits are all resolved: whatever else happens in between, each of them brings it one
   further, without an error, and with the last one it has succeeded.
   */
  lemma {:induction false} ResolvedAttemptConnects(acts: seq<Action>, more: seq<Action>, id: int)
    requires Execute(acts).Some? && InFlight(Execute(acts).value, id) && Execute(acts).value.usable
    requires Execute(acts + more).Some? && Favourable(more, id)
    requires Awaits(Execute(acts).value.attempts[id].pc) > 0
    requires Resumptions(more, id) <= Awaits(Execute(acts).value.attempts[id].pc)
    ensures var s, t := Execute(acts).value, Execute(acts + more).value;
            && InFlight(t, id) && t.usable && t.errors == s.errors
            && Awaits(t.attempts[id].pc) == Awaits(s.attempts[id].pc) - Resumptions(more, id)
            && (Awaits(t.attempts[id].pc) == 0 ==> t.attempts[id].pc == Settled(true))
  {
    hide Execute, Allowed, Step, Awaits;
    if more == [] {
      assert acts + more == acts;
    } else {
      var init, last := more[..|more| - 1], more[|more| - 1];
      assert acts + more == acts + init + [last];
      RunPrefix(acts + init, last);
      assert forall act :: act in init ==> act in more;
      assert last in more;
      ResolvedAttemptConnects(acts, init, id);
      var t := Execute(acts + init).value;
      AlwaysInv(acts + init);
      OneResolvedStep(t, last, id);
    }
  }

  lemma OneResolvedStep(s: State, act: Action, id: int)
    requires Inv(s) && Allowed(s, act) && InFlight(s, id) && s.usable && Favourable([act], id)
    requires act.ResumesAttempt? && act.id == id ==> Awaits(s.attempts[id].pc) > 0
    ensures var t := Step(s, act);
            && InFlight(t, id) && t.usable && t.errors == s.errors
            && if act.ResumesAttempt? && act.id == id then
                 && Awaits(t.attempts[id].pc) == Awaits(s.attempts[id].pc) - 1
                 && (Awaits(t.attempts[id].pc) == 0 ==> t.attempts[id].pc == Settled(true))
               else t.attempts[id] == s.attempts[id]
  {
    assert act in [act];
    if act.ResumesAttempt? && act.id == id {
      ResolvedAwait(s, id);
      hide Awaits, ResumeAttempt, Inv;
    } else {
      OthersLeaveAttempt(s, act, id);
      hide Step, Inv, Awaits;
    }
  }

  /** Nobody disconnects, and this attempt does not go on. */
  predicate Without(acts: seq<Action>, id: int) {
    forall act :: act in acts ==> !act.CallDisconnect? && !(act.ResumesAttempt? && act.id == id)
  }

  lemma {:induction false} AttemptStays(acts: seq<Action>, more: seq<Action>, id: int)
    requires Execute(acts).Some? && InFlight(Execute(acts).value, id) && Execute(acts + more).Some? && Without(more, id)
    ensures var s, t := Execute(acts).value, Execute(acts + more).value;
            && InFlight(t, id) && t.attempts[id] == s.attempts[id] && t.errors == s.errors
            && (s.timer.Some? && TimerFires !in more ==> t.timer.Some?)
  {
    hide Execute, Allowed, Step;
    if more == [] {
      assert acts + more == acts;
    } else {
      var init, last := more[..|more| - 1], more[|more| - 1];
      assert acts + more == acts + init + [last];
      assert last in more;
      RunPrefix(acts + init, last);
      AttemptStays(acts, init, id);
      AlwaysInv(acts + init);
      hide Inv;
      assert Possible(Execute(acts + init).value, last) by { AllowedIsPossible(Execute(acts + init).value, last); }
      OthersLeaveAttempt(Execute(acts + init).value, last, id);
    }
  }

  lemma AllowedIsPossible(s: State, act: Action)
    requires Allowed(s, act)
    ensures Possible(s, act)
  {
  }

  /**
   A rejected connection: at once, and for as long as the attempt does not go on, there is exactly one more
   error, the attempt has failed, and the timer to try again is armed until it fires.
   */
  lemma RejectedAttemptFails(acts: seq<Action>, more: seq<Action>, id: int)
    requires Execute(acts).Some? && InFlight(Execute(acts).value, id)
    requires Execute(acts).value.attempts[id].pc.Preparing? || Execute(acts).value.attempts[id].pc.Connecting?
    requires Execute(acts + [ResumesAttempt(id, false)] + more).Some? && Without(more, id)
    ensures var s, t := Execute(acts).value, Execute(acts + [ResumesAttempt(id, false)] + more).value;
            && InFlight(t, id) && t.attempts[id].pc == Settled(false) && t.errors == s.errors + 1
            && (TimerFires !in more ==> t.timer.Some?)
  {
    hide Execute, Allowed, Inv;
    AlwaysSound(acts);
    var s := Execute(acts).value;
    RunStarts(acts + [ResumesAttempt(id, false)], more);
    RunPrefix(acts, ResumesAttempt(id, false));
    assert s.attempts[id].client.Some? by { BuildsOnClient(s, id); }
    RejectedAwait(s, id);
    hide ResumeAttempt;
    AttemptStays(acts + [ResumesAttempt(id, false)], more, id);
  }

  lemma BuildsOnClient(s: State, id: int)
    requires Inv(s) && id in s.attempts && (BuildsOn(s.attempts[id].pc) || s.attempts[id].pc.DisposingRefused?)
    ensures s.attempts[id].client.Some? && s.client == s.attempts[id].client
  {
    OneAttempt(s, id);
  }

  /**
   A refused session: no error yet, but the client is given up; when its disposal has ended, however it did,
   the attempt has failed with exactly one error, the timer is armed, and the manager has no client.
   */
  lemma RefusedAttemptFails(acts: seq<Action>, between: seq<Action>, id: int, resolved: bool)
    requires Execute(acts).Some? && InFlight(Execute(acts).value, id)
    requires Execute(acts).value.attempts[id].pc.CreatingSession? && Without(between, id)
    requires Execute(acts + [ResumesAttempt(id, false)] + between + [ResumesAttempt(id, resolved)]).Some?
    ensures var s := Execute(acts).value;
            var u := Execute(acts + [ResumesAttempt(id, false)] + between);
            var t := Execute(acts + [ResumesAttempt(id, false)] + between + [ResumesAttempt(id, resolved)]).value;
            && s.client.Some? && u.Some? && u.value.errors == s.errors && s.client.value in t.disposed
            && FailedOnce(u.value, t, id) && t.client.None?
  {
    hide Execute, Allowed, Inv;
    AlwaysSound(acts);
    var s := Execute(acts).value;
    var refused := acts + [ResumesAttempt(id, false)];
    RunPrefix(refused + between, ResumesAttempt(id, resolved));
    RunStarts(refused, between);
    RunPrefix(acts, ResumesAttempt(id, false));
    BuildsOnClient(s, id);
    RejectedAwait(s, id);
    RefusedKeepsClient(s, id);
    AttemptStays(refused, between, id);
    var u := Execute(refused + between).value;
    AlwaysInv(refused + between);
    BuildsOnClient(u, id);
    RefusedIsDisposed(u, id);
    RefusedAwait(u, id, resolved);
  }

  lemma RefusedKeepsClient(s: State, id: int)
    requires id in s.attempts && s.attempts[id].pc.CreatingSession?
    ensures ResumeAttempt(s, id, false).attempts[id].client == s.attempts[id].client
  {
  }

  lemma RefusedIsDisposed(s: State, id: int)
    requires Inv(s) && id in s.attempts && s.attempts[id].pc.DisposingRefused?
    ensures s.attempts[id].client.Some? && s.attempts[id].client.value in s.disposed
  {
    OneAttempt(s, id);
  }

  // ----- trying again

  /** A new attempt is in flight, under the current lifecycle; it is the one callers are handed. */
  predicate Began(s: State, t: State) {
    t.started == s.started + 1 && t.promise == Some(s.started) && InFlight(t, s.started)
  }

  lemma StartBegins(s: State)
    ensures Began(s, Start(s))
  {
  }

  /** `connect()` without a connection or an attempt in flight begins one. */
  lemma ConnectBegins(s: State)
    requires !s.isConnected && s.promise.None?
    ensures Began(s, Connect(s))
  {
    hide Start;
    StartBegins(s);
  }

  /** In any run, the armed timer may fire, and without a connection or an attempt in flight it begins one. */
  lemma TimerTriesAgain(acts: seq<Action>)
    requires Execute(acts).Some? && Execute(acts).value.timer.Some?
    ensures var s := Execute(acts).value;
            && Allowed(s, TimerFires)
            && (!s.isConnected && s.promise.None? ==> Began(s, Step(s, TimerFires)))
  {
    hide Execute, Start;
    AlwaysInv(acts);
    var s := Execute(acts).value;
    assert s.disconnects == map[] && s.timer.value == s.life;
    hide Inv;
    if !s.isConnected && s.promise.None? {
      ConnectBegins(s.(timer := None));
    }
  }

  // ----- the retry loop

  /** The retry loop only ever waits for the attempt that is in flight. */
  ghost predicate LoopAwaitsInFlight(s: State) {
    s.loop.Some? && s.loop.value.pc.AwaitingConnect? ==> s.promise == Some(s.loop.value.pc.attempt)
  }

  lemma ConnectKeepsLoop(s: State)
    ensures Connect(s).loop == s.loop && (s.promise.Some? ==> Connect(s) == s)
  {
  }

  lemma DisposeKeepsLoop(s: State, c: Option<int>)
    ensures Dispose(s, c).loop == s.loop && Dispose(s, c).promise == s.promise
    ensures CloseSession(s, c).loop == s.loop && CloseSession(s, c).promise == s.promise
  {
  }

  lemma ThrowKeepsLoop(s: State, id: int, a: Attempt)
    ensures Throw(s, id, a).loop == s.loop && Throw(s, id, a).promise == s.promise
    ensures Begin(s, id, a).loop == s.loop && Begin(s, id, a).promise == s.promise
  {
    DisposeKeepsLoop(s, a.client);
    DisposeKeepsLoop(s, a.session);
    hide Dispose, CloseSession;
    CaughtKeepsLoop(s, id, a);
    hide Throw;
  }

  lemma CaughtKeepsLoop(s: State, id: int, a: Attempt)
    ensures Throw(s, id, a).loop == s.loop && Throw(s, id, a).promise == s.promise
  {
    DisposeKeepsLoop(s, a.client);
    DisposeKeepsLoop(s, a.session);
    hide Dispose, CloseSession;
  }

  lemma AttemptKeepsLoop(s: State, id: int, resolved: bool)
    requires id in s.attempts && s.promise == Some(id) && LoopAwaitsInFlight(s)
    ensures LoopAwaitsInFlight(ResumeAttempt(s, id, resolved))
  {
    hide Dispose, Throw, Begin;
    var a := s.attempts[id];
    match a.pc
    case ClosingPrevious(p) => DisposeKeepsLoop(s, Some(p));
    case DisposingPrevious(_) =>
      ThrowKeepsLoop(s, id, a);
      ThrowKeepsLoop(s.(client := None, session := None), id, a);
    case Preparing => ThrowKeepsLoop(s, id, a);
    case Connecting => ThrowKeepsLoop(s, id, a);
    case CreatingSession =>
      DisposeKeepsLoop(s, a.client);
      ThrowKeepsLoop(s.(sessions := s.sessions + 1), id, a.(session := Some(s.sessions)));
    case DisposingRefused =>
      ThrowKeepsLoop(s, id, a);
      ThrowKeepsLoop(s.(client := None), id, a);
    case ClosingAborted => DisposeKeepsLoop(s, a.client);
    case _ =>
  }

  lemma OtherStepKeepsLoop(s: State, act: Action)
    requires Possible(s, act) && LoopAwaitsInFlight(s)
    requires !act.CallDisconnect? && !act.ResumesAttempt? && !act.ResumesDisconnect?
    ensures LoopAwaitsInFlight(Step(s, act))
  {
    hide Connect;
    var lost := s.(isConnected := false);
    match act
    case CallConnect => ConnectKeepsLoop(s);
    case TimerFires => ConnectKeepsLoop(s.(timer := None));
    case Reconnected => ConnectKeepsLoop(lost);
    case RepairEnds(_) => ConnectKeepsLoop(s.(repair := None, isConnected := false));
    case _ =>
  }

  lemma StepKeepsLoop(s: State, act: Action)
    requires Inv(s) && LoopAwaitsInFlight(s) && Possible(s, act)
    ensures LoopAwaitsInFlight(Step(s, act))
  {
    match act
    case CallDisconnect(reconnecting) =>
      hide Inv, StartDisconnect;
      StartDisconnectLeavesAttempts(s, reconnecting);
    case ResumesAttempt(id, resolved) =>
      HasPromise(s, id);
      hide Inv, ResumeAttempt;
      AttemptKeepsLoop(s, id, resolved);
    case ResumesDisconnect(d, reconnecting) =>
      hide Inv, ResumeDisconnect;
      DisconnectLeavesAttempts(s, d, reconnecting);
    case _ =>
      hide Inv, Step;
      OtherStepKeepsLoop(s, act);
  }

  lemma {:induction false} AlwaysLoopAwaits(acts: seq<Action>)
    requires Execute(acts).Some?
    ensures LoopAwaitsInFlight(Execute(acts).value)
  {
    hide Inv, Step, Possible, LoopAwaitsInFlight, Considered;
    if acts == [] {
      LoopAtFirst();
    } else {
      AlwaysLoopAwaits(acts[..|acts| - 1]);
      AlwaysInv(acts[..|acts| - 1]);
      StepKeepsLoop(Execute(acts[..|acts| - 1]).value, acts[|acts| - 1]);
    }
  }

  lemma LoopAtFirst()
    ensures LoopAwaitsInFlight(INITIAL)
  {
  }

  /**
   The retry loop in any run: it waits only for the attempt in flight, and hears how that one ended; after a
   failure it sleeps, and after that it calls `connect()` again and waits, unless a connection is there.
   */
  lemma LoopTriesAgain(acts: seq<Action>, resolved: bool)
    requires Execute(acts).Some? && Execute(acts).value.loop.Some?
    requires !Aborted(Execute(acts).value, Execute(acts).value.loop.value.life)
    ensures var s := Execute(acts).value;
            var life := s.loop.value.life;
            match s.loop.value.pc
            case AwaitingConnect(id) =>
              && id in s.attempts
              && (s.attempts[id].pc.Settled? ==>
                    Step(s, ResumesAttempt(id, resolved)).loop == Some(Loop(life, Woken(s.attempts[id].pc.ok))))
              && (s.attempts[id].pc.Released? ==>
                    Step(s, ResumesAttempt(id, resolved)).loop == Some(Loop(life, Woken(false))))
            case Woken(ok) =>
              Step(s, ResumesLoop(true)).loop == if ok then None else Some(Loop(life, Sleeping))
            case Sleeping =>
              var t := Step(s, ResumesLoop(true));
              if s.isConnected then t.loop == Some(Loop(life, Woken(true)))
              else
                && t.promise.Some? && t.loop == Some(Loop(life, AwaitingConnect(t.promise.value)))
                && (if s.promise.Some? then t.promise == s.promise else Began(s, t))
  {
    hide Execute;
    AlwaysInv(acts);
    AlwaysLoopAwaits(acts);
    var s := Execute(acts).value;
    ReadyToResume(s);
    hide Inv, Start;
    if s.loop.value.pc.Sleeping? && !s.isConnected && s.promise.None? {
      ConnectBegins(s);
    }
  }

  /** Out of attempts, or stopped by the caller, it ends; and while it runs, another `reconnect()` only joins it. */
  lemma LoopEnds(s: State, cooldown: bool, stopped: bool)
    requires s.loop.Some?
    ensures !s.loop.value.pc.AwaitingConnect? ==> ResumeLoop(s, false) == s.(loop := None)
    ensures Reconnect(s, cooldown, stopped) == s
  {
  }

  lemma ReadyToResume(s: State)
    requires Inv(s)
    ensures s.promise.Some? ==> s.promise.value in s.attempts
  {
    assert s.promise.Some? ==> s.attempts.Keys == {s.promise.value};
  }

  // ----- a disconnect comes to an end

  /** How often a disconnect can still go on. */
  function DisconnectRank(pc: DisconnectPc): nat {
    match pc
    case DisposingInFlight => 6
    case AwaitingAttempt(_) => 5
    case DisposingOffline => 4
    case Terminating => 3
    case ClosingSession => 2
    case DisposingFinal => 1
  }

  /** How often an attempt of an ended lifecycle can still go on. */
  function ReleaseRank(pc: AttemptPc): nat {
    match pc
    case ClosingPrevious(_) => 7
    case DisposingPrevious(_) => 6
    case Preparing => 5
    case Connecting => 5
    case CreatingSession => 5
    case DisposingRefused => 4
    case ClosingAborted => 3
    case DisposingAborted => 2
    case Settled(_) => 1
    case Released => 1
  }

  function DisconnectsLeft(s: State, d: int): nat {
    if d in s.disconnects then DisconnectRank(s.disconnects[d]) else 0
  }

  function ReleasesLeft(s: State, id: int): nat {
    if id in s.attempts then ReleaseRank(s.attempts[id].pc) else 0
  }

  predicate SamePlaces(s: State, t: State) {
    t.disconnects == s.disconnects && t.calls == s.calls && t.promise == s.promise && t.started == s.started
  }

  lemma DisposeKeepsPlaces(s: State, c: Option<int>)
    ensures SamePlaces(s, Dispose(s, c)) && Dispose(s, c).attempts == s.attempts
    ensures SamePlaces(s, CloseSession(s, c)) && CloseSession(s, c).attempts == s.attempts
  {
  }

  lemma AfterAttemptRank(s: State, d: int, reconnecting: bool)
    ensures var t := AfterAttempt(s, d, reconnecting);
            && d in t.disconnects && DisconnectRank(t.disconnects[d]) <= 4
            && t.disconnects == s.disconnects[d := t.disconnects[d]]
    ensures var t := DisposeLast(s, d);
            || (d in t.disconnects && DisconnectRank(t.disconnects[d]) == 1
                && t.disconnects == s.disconnects[d := t.disconnects[d]])
            || t.disconnects == s.disconnects - {d}
  {
    hide Dispose;
    DisposeKeepsPlaces(s, s.client);
  }

  lemma EachDisconnectStep(s: State, d: int, reconnecting: bool)
    requires d in s.disconnects
    ensures var t := ResumeDisconnect(s, d, reconnecting);
            || (d in t.disconnects && DisconnectRank(t.disconnects[d]) < DisconnectRank(s.disconnects[d])
                && t.disconnects == s.disconnects[d := t.disconnects[d]])
            || t.disconnects == s.disconnects - {d}
  {
    hide CloseSession, AfterAttempt, DisposeLast;
    match s.disconnects[d]
    case DisposingInFlight => AfterAttemptRank(s, d, reconnecting);
    case AwaitingAttempt(_) => AfterAttemptRank(s, d, reconnecting);
    case DisposingOffline =>
    case Terminating =>
      DisposeKeepsPlaces(s, s.session);
      AfterAttemptRank(s, d, reconnecting);
    case ClosingSession => AfterAttemptRank(s.(session := None), d, reconnecting);
    case DisposingFinal =>
  }

  lemma AbortedThrowRank(s: State, id: int, a: Attempt)
    requires Aborted(s, a.life)
    ensures var t := Throw(s, id, a);
            && id in t.attempts
            && ReleaseRank(t.attempts[id].pc) <= if a.session.Some? then 3 else 2
    ensures Begin(s, id, a) == Throw(s, id, a)
  {
    hide Dispose, CloseSession;
    DisposeKeepsPlaces(s, a.client);
    DisposeKeepsPlaces(s, a.session);
  }

  lemma EachReleaseStep(s: State, id: int, resolved: bool)
    requires id in s.attempts && Aborted(s, s.attempts[id].life)
    ensures ReleasesLeft(ResumeAttempt(s, id, resolved), id) < ReleasesLeft(s, id)
  {
    hide Dispose, CloseSession, Throw, Begin;
    var a := s.attempts[id];
    match a.pc
    case ClosingPrevious(p) => DisposeKeepsPlaces(s, Some(p));
    case DisposingPrevious(_) =>
      AbortedThrowRank(s, id, a);
      AbortedThrowRank(s.(client := None, session := None), id, a);
    case Preparing => AbortedThrowRank(s, id, a);
    case Connecting => AbortedThrowRank(s, id, a);
    case CreatingSession =>
      DisposeKeepsPlaces(s, a.client);
      AbortedThrowRank(s.(sessions := s.sessions + 1), id, a.(session := Some(s.sessions)));
    case DisposingRefused =>
      AbortedThrowRank(s, id, a);
      AbortedThrowRank(s.(client := None), id, a);
    case ClosingAborted => DisposeKeepsPlaces(s, a.client);
    case _ =>
  }

  /** How often a disconnect, and the attempt it waits for, can still go on. */
  function Left(s: State, d: int): nat {
    DisconnectsLeft(s, d) + (if s.promise.Some? then ReleasesLeft(s, s.promise.value) else 0)
  }

  predicate GoesOn(act: Action, d: int) {
    act.ResumesAttempt? || (act.ResumesDisconnect? && act.d == d)
  }

  /** A new attempt, or the same ones. */
  predicate BeganOrSame(s: State, t: State) {
    && t.disconnects == s.disconnects && t.calls == s.calls
    && (t.started == s.started ==> t.attempts == s.attempts && t.promise == s.promise) && t.started >= s.started
  }

  lemma ConnectKeepsPlaces(s: State)
    ensures BeganOrSame(s, Connect(s))
  {
    hide Start;
    StartKeepsPlaces(s);
  }

  lemma StartKeepsPlaces(s: State)
    ensures var t := Start(s);
            t.disconnects == s.disconnects && t.calls == s.calls && t.started == s.started + 1
  {
  }

  lemma LoopConnectKeepsPlaces(s: State, life: int)
    ensures BeganOrSame(s, LoopConnect(s, life))
  {
    hide Connect;
    ConnectKeepsPlaces(s);
  }

  lemma ReconnectsKeepPlaces(s: State, cooldown: bool, stopped: bool, retry: bool)
    ensures BeganOrSame(s, Reconnect(s, cooldown, stopped))
    ensures s.loop.Some? ==> BeganOrSame(s, ResumeLoop(s, retry))
  {
    hide LoopConnect;
    LoopConnectKeepsPlaces(s.(isConnected := false), s.life);
    if s.loop.Some? {
      LoopConnectKeepsPlaces(s, s.loop.value.life);
    }
  }

  lemma EventsKeepPlaces(s: State, sessionClosed: bool)
    ensures s.client.Some? ==> BeganOrSame(s, AfterReconnection(s))
    ensures s.repair.Some? ==> BeganOrSame(s, FinishRepair(s, sessionClosed))
    ensures s.timer.Some? ==> BeganOrSame(s, FireTimer(s))
  {
    hide Connect;
    ConnectKeepsPlaces(s.(isConnected := false));
    ConnectKeepsPlaces(s.(repair := None, isConnected := false));
    ConnectKeepsPlaces(s.(timer := None));
  }

  lemma OtherStepKeepsPlaces(s: State, act: Action)
    requires Possible(s, act) && !act.CallDisconnect? && !act.ResumesAttempt? && !act.ResumesDisconnect?
    ensures BeganOrSame(s, Step(s, act))
  {
    hide Connect, Reconnect, ResumeLoop, AfterReconnection, FinishRepair, FireTimer;
    match act
    case CallConnect => ConnectKeepsPlaces(s);
    case CallReconnect(cooldown, stopped) => ReconnectsKeepPlaces(s, cooldown, stopped, false);
    case ResumesLoop(retry) => ReconnectsKeepPlaces(s, false, false, retry);
    case TimerFires => EventsKeepPlaces(s, false);
    case Reconnected => EventsKeepPlaces(s, false);
    case RepairEnds(sessionClosed) => EventsKeepPlaces(s, sessionClosed);
    case _ =>
  }

  lemma StartDisconnectAdds(s: State, reconnecting: bool)
    ensures var t := StartDisconnect(s, reconnecting);
            t.calls == s.calls + 1 && s.calls in t.disconnects
            && t.disconnects == s.disconnects[s.calls := t.disconnects[s.calls]]
  {
    hide Dispose, AfterAttempt;
    var s1 := s.(calls := s.calls + 1, life := s.life + 1, timer := None);
    DisposeKeepsPlaces(s1, s.client);
    AfterAttemptRank(s1, s.calls, reconnecting);
    AfterAttemptLeavesAttempts(s1, s.calls, reconnecting);
  }

  /** While a disconnect runs, every step either leaves it where it is, or brings it nearer to its end. */
  lemma OneStepNearer(s: State, act: Action, d: int)
    requires Inv(s) && Allowed(s, act) && d < s.calls
    ensures var t := Step(s, act);
            && d < t.calls && (d !in s.disconnects ==> d !in t.disconnects)
            && (d in t.disconnects ==> Left(t, d) + (if GoesOn(act, d) then 1 else 0) <= Left(s, d))
  {
    match act
    case CallDisconnect(reconnecting) =>
      StartDisconnectAdds(s, reconnecting);
      StartDisconnectLeavesAttempts(s, reconnecting);
      hide Inv, StartDisconnect, DisconnectRank, ReleaseRank;
    case ResumesAttempt(id, resolved) =>
      HasPromise(s, id);
      if d in s.disconnects {
        DisconnectMeansAborted(s, d);
        EachReleaseStep(s, id, resolved);
      }
      AttemptKeepsPlaces(s, id, resolved);
      hide Inv, ResumeAttempt, DisconnectRank, ReleaseRank;
    case ResumesDisconnect(e, reconnecting) =>
      EachDisconnectStep(s, e, reconnecting);
      DisconnectLeavesAttempts(s, e, reconnecting);
      hide Inv, ResumeDisconnect, DisconnectRank, ReleaseRank;
    case _ =>
      OtherStepKeepsPlaces(s, act);
      hide Inv, Step, DisconnectRank, ReleaseRank;
  }

  lemma ThrowKeepsPlaces(s: State, id: int, a: Attempt)
    ensures SamePlaces(s, Throw(s, id, a)) && SamePlaces(s, Begin(s, id, a))
  {
    hide Dispose, CloseSession;
    DisposeKeepsPlaces(s, a.client);
    DisposeKeepsPlaces(s, a.session);
  }

  lemma FinallyKeepsPlaces(s: State, id: int, ok: bool)
    ensures var t := Finally(s, id, ok); SamePlaces(s, t.(promise := s.promise)) && t.promise.None?
  {
  }

  lemma AttemptKeepsPlaces(s: State, id: int, resolved: bool)
    requires id in s.attempts
    ensures var t := ResumeAttempt(s, id, resolved);
            SamePlaces(s, t.(promise := s.promise)) && (t.promise == s.promise || t.promise.None?)
  {
    hide Dispose, Throw, Begin, Finally;
    var a := s.attempts[id];
    match a.pc
    case ClosingPrevious(p) => DisposeKeepsPlaces(s, Some(p));
    case DisposingPrevious(_) =>
      ThrowKeepsPlaces(s, id, a);
      ThrowKeepsPlaces(s.(client := None, session := None), id, a);
    case Preparing => ThrowKeepsPlaces(s, id, a);
    case Connecting => ThrowKeepsPlaces(s, id, a);
    case CreatingSession =>
      DisposeKeepsPlaces(s, a.client);
      ThrowKeepsPlaces(s.(sessions := s.sessions + 1), id, a.(session := Some(s.sessions)));
    case DisposingRefused =>
      ThrowKeepsPlaces(s, id, a);
      ThrowKeepsPlaces(s.(client := None), id, a);
    case ClosingAborted => DisposeKeepsPlaces(s, a.client);
    case Settled(ok) => FinallyKeepsPlaces(s, id, ok);
    case Released => FinallyKeepsPlaces(s, id, false);
    case DisposingAborted =>
  }

  /** How often the disconnect `d` or an attempt goes on. */
  function Goings(acts: seq<Action>, d: int): nat {
    if acts == [] then 0
    else Goings(acts[..|acts| - 1], d) + (if GoesOn(acts[|acts| - 1], d) then 1 else 0)
  }

  /** Over every run segment in which a disconnect has not returned: only so many of its resumptions fit in. */
  lemma {:induction false} OnlySoOften(acts: seq<Action>, more: seq<Action>, d: int)
    requires Execute(acts).Some? && d in Execute(acts).value.disconnects
    requires Execute(acts + more).Some?
    ensures var s, t := Execute(acts).value, Execute(acts + more).value;
            && d < t.calls
            && (d in t.disconnects ==> Left(t, d) + Goings(more, d) <= Left(s, d) <= 13)
  {
    hide Execute, Allowed, Step;
    AlwaysInv(acts);
    if more == [] {
      assert acts + more == acts;
    } else {
      var init, last := more[..|more| - 1], more[|more| - 1];
      assert acts + more == acts + init + [last];
      RunPrefix(acts + init, last);
      OnlySoOften(acts, init, d);
      AlwaysInv(acts + init);
      hide Inv, Left, GoesOn;
      OneStepNearer(Execute(acts + init).value, last, d);
    }
  }

  /** And it is never stuck: it can go on itself, or the attempt it waits for can. */
  lemma NeverStuck(acts: seq<Action>, d: int, answer: bool)
    requires Execute(acts).Some? && d in Execute(acts).value.disconnects
    ensures var s := Execute(acts).value;
            || Allowed(s, ResumesDisconnect(d, answer))
            || (s.promise.Some? && Allowed(s, ResumesAttempt(s.promise.value, answer)))
  {
    hide Execute;
    AlwaysInv(acts);
    var s := Execute(acts).value;
    ReadyToResume(s);
    DisconnectMeansAborted(s, d);
    assert s.disconnects[d].AwaitingAttempt? && s.disconnects[d].attempt in s.attempts ==>
             s.promise == Some(s.disconnects[d].attempt);
    hide Inv;
    if s.promise.Some? {
      AttemptKeepsPlaces(s, s.promise.value, answer);
    }
    DisconnectBeginsNothing(s, d, answer);
    hide ResumeAttempt, ResumeDisconnect;
  }

  lemma DisconnectBeginsNothing(s: State, d: int, reconnecting: bool)
    requires d in s.disconnects
    ensures ResumeDisconnect(s, d, reconnecting).started == s.started
  {
  }

  /** So a disconnect always returns, after at most thirteen resumptions, whatever the awaits give. */
  lemma {:induction false} DisconnectReturns(acts: seq<Action>, d: int, answer: bool)
    requires Execute(acts).Some? && d in Execute(acts).value.disconnects
    ensures exists more :: Execute(acts + more).Some? && d !in Execute(acts + more).value.disconnects
                           && |more| <= Left(Execute(acts).value, d)
    decreases Left(Execute(acts).value, d)
  {
    hide Execute, Allowed, Step;
    var s := Execute(acts).value;
    NeverStuck(acts, d, answer);
    AlwaysInv(acts);
    var act := if Allowed(s, ResumesDisconnect(d, answer)) then ResumesDisconnect(d, answer)
               else ResumesAttempt(s.promise.value, answer);
    RunOn(acts, act);
    assert d < s.calls;
    hide Inv;
    OneStepNearer(s, act, d);
    AllowedIsPossible(s, act);
    hide Left;
    if d in Step(s, act).disconnects {
      DisconnectReturns(acts + [act], d, answer);
      var rest :| Execute(acts + [act] + rest).Some? && d !in Execute(acts + [act] + rest).value.disconnects
                  && |rest| <= Left(Execute(acts + [act]).value, d);
      assert acts + [act] + rest == acts + ([act] + rest);
    } else {
      SomethingIsLeft(s, d);
      assert Execute(acts + [act]).Some?;
    }
  }

  lemma SomethingIsLeft(s: State, d: int)
    ensures d in s.disconnects ==> Left(s, d) > 0
  {
  }

  lemma RunOn(acts: seq<Action>, act: Action)
    requires Execute(acts).Some? && Allowed(Execute(acts).value, act)
    ensures Execute(acts + [act]) == Some(Step(Execute(acts).value, act))
  {
    hide Allowed, Step;
    assert (acts + [act])[..|acts|] == acts;
  }

  // ----- what a user sees of the rest

  /** A lost, failed or silent connection is no longer reported as one; a failed one is tried again later. */
  lemma LossIsNoticed(s: State, act: Action)
    requires Possible(s, act) && (act.ConnectionLost? || act.ConnectionFailed? || act.OperationTimesOut?)
    ensures !Step(s, act).isConnected && Step(s, act).errors == s.errors
    ensures act.ConnectionFailed? ==> Step(s, act).timer.Some?
  {
  }

  /** `reconnect()` gives the connection up and awaits an attempt: the one in flight, or a new one. */
  lemma ReconnectAwaitsAnAttempt(s: State)
    requires s.loop.None?
    ensures var t := Reconnect(s, false, false);
            && t.promise.Some? && t.loop == Some(Loop(s.life, AwaitingConnect(t.promise.value)))
            && !t.isConnected
            && (if s.promise.Some? then t.promise == s.promise else Began(s, t))
    ensures s.isConnected ==> Reconnect(s, true, false) == s
    ensures Reconnect(s, false, true) == s.(isConnected := false)
  {
    hide Start;
    StartBegins(s.(isConnected := false));
    StartKeepsFlag(s.(isConnected := false));
  }

  lemma StartKeepsFlag(s: State)
    ensures Start(s).isConnected == s.isConnected
  {
  }

  /**
   A repaired session is used again as long as it is still the manager's; one that was closed meanwhile is
   replaced by connecting anew; and what has been replaced already is left alone.
   */
  lemma RepairDecides(s: State)
    requires s.repair.Some?
    ensures var r := s.repair.value;
            var still := s.client == Some(r.client) && s.session == Some(r.session);
            && (still ==> FinishRepair(s, false).isConnected && FinishRepair(s, false).attempts == s.attempts)
            && (still && s.promise.None? ==> Began(s, FinishRepair(s, true)))
            && (!still ==> FinishRepair(s, false).isConnected == s.isConnected
                           && FinishRepair(s, true) == FinishRepair(s, false)
                           && FinishRepair(s, true).attempts == s.attempts)
            && (s.promise.Some? ==> FinishRepair(s, true).attempts == s.attempts)
  {
    hide Start;
    StartBegins(s.(repair := None, isConnected := false));
  }

  /** Without a session there is nothing to repair: the manager connects anew. */
  lemma ReconnectedWithoutSession(s: State)
    requires s.client.Some? && s.repair.None?
    ensures s.session.Some? ==>
              AfterReconnection(s) == s.(repair := Some(Repair(s.client.value, s.session.value)))
    ensures s.session.None? && s.promise.None? ==> Began(s, AfterReconnection(s))
  {
    hide Start;
    StartBegins(s.(isConnected := false));
  }

  /**
   The order of a disconnect: an attempt in flight loses its client at once; a connection that is down or
   reconnecting loses its client before its session is closed; a live one closes its session first.
   */
  lemma DisconnectOrder(s: State, reconnecting: bool, later: bool)
    requires s.client.Some? && s.session.Some?
    ensures var t := StartDisconnect(s, reconnecting);
            && s.calls in t.disconnects && t.closed == s.closed && t.timer.None?
            && if s.promise.Some? || !s.isConnected || reconnecting then s.client.value in t.disposed
               else
                 && t.disposed == s.disposed
                 && var u := ResumeDisconnect(t, s.calls, later);
                    s.session.value in u.closed && u.disposed == s.disposed
  {
  }

  /** A new attempt first closes the session left over, then disposes its client, and only then creates one. */
  lemma CleanupOrder(s: State, answer: bool, later: bool)
    requires s.client.Some? && s.session.Some?
    ensures var id := s.started;
            var t := Start(s);
            var u := ResumeAttempt(t, id, answer);
            && s.session.value in t.closed && t.disposed == s.disposed && t.clients == s.clients
            && id in u.attempts && s.client.value in u.disposed && u.clients == s.clients
            && (s.usable ==>
                  var v := ResumeAttempt(u, id, later);
                  v.clients == s.clients + 1 && v.client == Some(s.clients) && v.session.None?)
  {
  }
}
