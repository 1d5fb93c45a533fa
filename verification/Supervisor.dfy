/** The handshake between a scenario run, its supervisor and the worker
    (scripts/run_scenarios.py).

    Three processes, two pipes.  The supervisor forks the worker, names it in a
    ready frame, and answers a shutdown frame with a stopped frame once the worker
    is reaped.  Every action below is one step of one process; bytes cross a pipe
    in pieces of any size; every wait may time out and every process may die.  A
    process that holds the acknowledgement pipe may also write anything else to it
    (`Garble`); the statements about the worker are about runs in which none does,
    those about the parent's own decisions about all runs. */
module Supervisor {
  import opened Wrappers

  type Bytes = string

  const FRAME_LIMIT: nat := 1024

  datatype Frame = Frame(event: string, nonce: string, pid: int)

  /** One run: canonical JSON lines and their strict parser, the nonce handed to
      the supervisor, and the process id its fork gives. */
  datatype Setting = Setting(line: Frame -> Bytes, parse: Bytes -> Option<Frame>, nonce: string, pid: int)

  function Line(c: Setting, event: string): Bytes { c.line(Frame(event, c.nonce, c.pid)) }

  function Ready(c: Setting): Bytes { Line(c, "ready") }

  function Stopped(c: Setting): Bytes { Line(c, "stopped") }

  /** A line ends at its only newline; only a line of a frame parses, to that frame;
      the three frames of this run fit the limit. */
  ghost predicate WellFramed(c: Setting) {
    && c.pid > 0
    && (forall f :: IsLine(c.line(f)))
    && (forall b, f :: c.parse(b) == Some(f) <==> b == c.line(f))
    && |Ready(c)| <= FRAME_LIMIT && |Line(c, "shutdown")| <= FRAME_LIMIT && |Stopped(c)| <= FRAME_LIMIT
  }

  predicate IsLine(b: Bytes) {
    b != [] && b[|b| - 1] == '\n' && forall i :: 0 <= i < |b| - 1 ==> b[i] != '\n'
  }

  /** `Alive(true)` still holds the pipe ends it inherited. */
  datatype Worker = Unborn | Alive(holds: bool) | Zombie | Reaped

  datatype SupervisorAt =
    | Forking | SendReady(k: nat) | Watching | Stopping | SendStopped(k: nat) | Closing | Exited(code: int)

  datatype Supervisor = Supervisor(at: SupervisorAt, reaped: bool, control: Bytes)

  datatype Ending = Returned | Raised(cleanup: Cleanup)

  /** How the children were put away when the parent raises. */
  datatype Cleanup = Handshake | GroupKilled | KillDenied

  datatype ParentAt = ReadReady | Watch | SendShutdown(k: nat) | ReadStopped | Wait | Over(ending: Ending)

  /** `raising`: an exception is on its way while the handshake runs. */
  datatype Parent = Parent(at: ParentAt, buffer: Bytes, named: Option<int>, raising: bool)

  datatype System = System(
    worker: Worker, supervisor: Supervisor, parent: Parent,
    // Acknowledgement pipe: everything written, everything read, the supervisor's end.
    sent: Bytes, taken: Bytes, open: bool,
    // Shutdown pipe: what is in it, the parent's end.
    shutdown: Bytes, shutdownOpen: bool)

  const START := System(Unborn, Supervisor(Forking, false, []), Parent(ReadReady, [], None, false),
                        [], [], true, [], true)

  datatype Action =
    // worker
    | CloseInherited | Die
    // whoever holds the acknowledgement pipe
    | Garble(bytes: Bytes)
    // supervisor
    | Fork | Write(n: nat) | Reap | ReadControl(n: nat) | ControlEof | StopTimeout | Close | Fail(code: int)
    // parent
    | TakeLine | TakeReady(n: nat) | ReadyFails | Seen(raising: bool)
    | WriteShutdown(n: nat) | TakeStopped(n: nat) | StoppedEof | HandshakeFails | Collect(overlong: bool)
    // how the forced cleanup of a failing step goes
    | Forced(failing: Action, denied: bool)

  function Do(c: Setting, s: System, a: Action): Option<System> {
    match a
    case CloseInherited => if s.worker == Alive(true) then Some(s.(worker := Alive(false))) else None
    case Die => if s.worker.Alive? then Some(s.(worker := Zombie)) else None
    case Garble(bytes) =>
      if !s.supervisor.at.Exited? || s.worker == Alive(true) then Some(s.(sent := s.sent + bytes)) else None
    case Forced(failing, denied) => if ParentFails(c, s, failing) then Some(ForceCleanup(s, denied)) else None
    case TakeLine => DoTakeLine(c, s)
    case TakeReady(n) => DoTakeReady(s, n)
    case Seen(raising) =>
      if s.parent.at == Watch then Some(s.(parent := s.parent.(at := SendShutdown(0), raising := raising))) else None
    case WriteShutdown(n) => DoWriteShutdown(c, s, n)
    case TakeStopped(n) => DoTakeStopped(s, n)
    case StoppedEof => DoStoppedEof(c, s)
    case Collect(overlong) => DoCollect(s, overlong)
    case ReadyFails => None
    case HandshakeFails => None
    case _ => DoSupervisor(c, s, a)
  }

  // -------------------------------------------------------------- supervisor

  function Exit(s: System, code: int): System {
    s.(supervisor := s.supervisor.(at := Exited(code)), open := false)
  }

  function Killed(w: Worker): Worker { if w.Alive? then Zombie else w }

  function DoSupervisor(c: Setting, s: System, a: Action): Option<System> {
    var v := s.supervisor;
    if v.at.Exited? then None
    else
      match a
      case Fork =>
        if v.at == Forking then Some(s.(worker := Alive(true), supervisor := v.(at := SendReady(0)))) else None
      case Write(n) => DoWrite(c, s, n)
      case Reap =>
        if s.worker == Zombie && v.at == Watching then Some(s.(worker := Reaped, supervisor := v.(reaped := true)))
        else if s.worker == Zombie && v.at == Stopping then
          Some(s.(worker := Reaped, supervisor := v.(reaped := true, at := SendStopped(0))))
        else None
      case ReadControl(n) =>
        if v.at == Watching && 0 < n <= |s.shutdown| && n <= FRAME_LIMIT + 1 - |v.control| then
          var read := s.(shutdown := s.shutdown[n..], supervisor := v.(control := v.control + s.shutdown[..n]));
          Some(if |read.supervisor.control| > FRAME_LIMIT then Exit(read, 97) else read)
        else None
      case ControlEof =>
        if v.at != Watching || s.shutdown != [] || s.shutdownOpen then None
        else if v.control != Line(c, "shutdown") then
          Some(Exit(if v.reaped then s else s.(worker := Killed(s.worker)), 97))
        else if v.reaped then Some(s.(supervisor := v.(at := SendStopped(0))))
        else Some(s.(worker := Killed(s.worker), supervisor := v.(at := Stopping)))
      case StopTimeout => if v.at == Stopping then Some(Exit(s, 97)) else None
      case Close => if v.at == Closing then Some(Exit(s, 0)) else None
      case Fail(code) => if code != 0 then Some(Exit(s, code)) else None
      case _ => None
  }

  function DoWrite(c: Setting, s: System, n: nat): Option<System> {
    var v := s.supervisor;
    match v.at
    case SendReady(k) =>
      if k + n <= |Ready(c)| && n > 0 then
        Some(s.(sent := s.sent + Ready(c)[k..k + n],
                supervisor := v.(at := if k + n == |Ready(c)| then Watching else SendReady(k + n))))
      else None
    case SendStopped(k) =>
      if k + n <= |Stopped(c)| && n > 0 then
        Some(s.(sent := s.sent + Stopped(c)[k..k + n],
                supervisor := v.(at := if k + n == |Stopped(c)| then Closing else SendStopped(k + n))))
      else None
    case _ => None
  }

  // ------------------------------------------------------------------ parent

  function Waiting(s: System): nat { if |s.taken| <= |s.sent| then |s.sent| - |s.taken| else 0 }

  function Take(s: System, n: nat): System
    requires n <= Waiting(s) && |s.taken| <= |s.sent|
  {
    var chunk := s.sent[|s.taken|..|s.taken| + n];
    s.(taken := s.taken + chunk, parent := s.parent.(buffer := s.parent.buffer + chunk))
  }

  /** Nothing left to read and nobody left to write. */
  predicate AtEof(s: System) {
    Waiting(s) == 0 && !s.open && s.worker != Alive(true)
  }

  function Newline(b: Bytes): (i: nat)
    ensures i <= |b|
    ensures i < |b| ==> b[i] == '\n'
    ensures forall k :: 0 <= k < i ==> b[k] != '\n'
  {
    if b == [] || b[0] == '\n' then 0 else 1 + Newline(b[1..])
  }

  predicate ReadyOk(c: Setting, raw: Bytes, rest: Bytes) {
    var f := c.parse(raw);
    && |raw| <= FRAME_LIMIT && rest == []
    && f.Some? && f.value.event == "ready" && f.value.nonce == c.nonce && f.value.pid > 0
  }

  /** A whole line is in the buffer and it is the ready frame. */
  function DoTakeLine(c: Setting, s: System): Option<System> {
    var p := s.parent;
    var i := Newline(p.buffer);
    if p.at == ReadReady && i < |p.buffer| && ReadyOk(c, p.buffer[..i + 1], p.buffer[i + 1..]) then
      Some(s.(parent := p.(at := Watch, buffer := [], named := Some(c.parse(p.buffer[..i + 1]).value.pid))))
    else None
  }

  function DoTakeReady(s: System, n: nat): Option<System> {
    var p := s.parent;
    if p.at == ReadReady && Newline(p.buffer) == |p.buffer| <= FRAME_LIMIT
       && 0 < n <= Waiting(s) && n <= FRAME_LIMIT + 1 - |p.buffer| && |s.taken| <= |s.sent|
    then Some(Take(s, n)) else None
  }

  function DoWriteShutdown(c: Setting, s: System, n: nat): Option<System> {
    var p := s.parent;
    var request := if p.named.Some? then c.line(Frame("shutdown", c.nonce, p.named.value)) else [];
    if p.at.SendShutdown? && p.named.Some? && n > 0 && p.at.k + n <= |request| then
      var wrote := s.(shutdown := s.shutdown + request[p.at.k..p.at.k + n]);
      Some(if p.at.k + n == |request| then wrote.(shutdownOpen := false, parent := p.(at := ReadStopped))
           else wrote.(parent := p.(at := SendShutdown(p.at.k + n))))
    else None
  }

  function DoTakeStopped(s: System, n: nat): Option<System> {
    var p := s.parent;
    if p.at == ReadStopped && |p.buffer| <= FRAME_LIMIT
       && 0 < n <= Waiting(s) && n <= FRAME_LIMIT + 1 - |p.buffer| && |s.taken| <= |s.sent|
    then Some(Take(s, n)) else None
  }

  predicate StoppedOk(c: Setting, p: Parent) {
    p.named.Some? && p.buffer == c.line(Frame("stopped", c.nonce, p.named.value))
  }

  function DoStoppedEof(c: Setting, s: System): Option<System> {
    if s.parent.at == ReadStopped && |s.parent.buffer| <= FRAME_LIMIT && AtEof(s) && StoppedOk(c, s.parent)
    then Some(s.(parent := s.parent.(at := Wait)))
    else None
  }

  /** The supervisor's exit status ends the handshake; whatever was raising still is. */
  function DoCollect(s: System, overlong: bool): Option<System> {
    if s.parent.at == Wait && s.supervisor.at.Exited? then
      var ending := if s.parent.raising || s.supervisor.at.code != 0 || overlong then Raised(Handshake) else Returned;
      Some(s.(parent := s.parent.(at := Over(ending))))
    else None
  }

  /** The steps of the parent that raise before the handshake is through: a frame
      that is too long, malformed, from elsewhere or cut short, and any timeout or
      failing call. */
  predicate ParentFails(c: Setting, s: System, a: Action) {
    var p := s.parent;
    match a
    case ReadyFails => p.at == ReadReady
    case TakeLine =>
      p.at == ReadReady && var i := Newline(p.buffer);
      i < |p.buffer| && !ReadyOk(c, p.buffer[..i + 1], p.buffer[i + 1..])
    case TakeReady(_) => p.at == ReadReady && Newline(p.buffer) == |p.buffer| && (|p.buffer| > FRAME_LIMIT || AtEof(s))
    case TakeStopped(_) => p.at == ReadStopped && |p.buffer| > FRAME_LIMIT
    case StoppedEof => p.at == ReadStopped && AtEof(s) && !StoppedOk(c, p)
    case HandshakeFails => p.at.SendShutdown? || p.at == ReadStopped || p.at == Wait
    case _ => false
  }

  /** Kill the whole process group; if that is not permitted, the supervisor alone. */
  function ForceCleanup(s: System, denied: bool): System {
    var gone := if s.supervisor.at.Exited? then s else Exit(s, -9);
    gone.(shutdownOpen := false,
          worker := if denied then s.worker else Killed(s.worker),
          parent := s.parent.(at := Over(Raised(if denied then KillDenied else GroupKilled))))
  }

  // --------------------------------------------------------------- invariant

  /** What the supervisor has said when it gets to a point. */
  function Spoken(c: Setting, at: SupervisorAt): Bytes {
    match at
    case Forking => []
    case SendReady(k) => if k <= |Ready(c)| then Ready(c)[..k] else []
    case Watching => Ready(c)
    case Stopping => Ready(c)
    case SendStopped(k) => if k <= |Stopped(c)| then Ready(c) + Stopped(c)[..k] else []
    case Closing => Ready(c) + Stopped(c)
    case Exited(_) => Ready(c) + Stopped(c)
  }

  /** Where the supervisor has seen the worker's end. */
  predicate KnowsReaped(v: Supervisor) {
    v.reaped || v.at.SendStopped? || v.at == Closing || v.at == Exited(0)
  }

  /** The acknowledgement pipe carries the ready line, then the stopped line, and
      not a byte of the second unless the worker has been reaped. */
  ghost predicate SentOk(c: Setting, s: System) {
    var at := s.supervisor.at;
    && (KnowsReaped(s.supervisor) ==> s.worker == Reaped)
    && (at == Forking ==> !s.supervisor.reaped)
    && s.sent <= Ready(c) + Stopped(c)
    && (|s.sent| > |Ready(c)| ==> s.worker == Reaped)
    && ((at.Exited? && at.code != 0) || s.sent == Spoken(c, at))
    && (at.SendReady? ==> at.k < |Ready(c)|)
    && (at.SendStopped? ==> at.k < |Stopped(c)|)
  }

  ghost predicate ParentOk(c: Setting, s: System) {
    var p := s.parent;
    && s.taken <= s.sent
    && match p.at
       case ReadReady => p.buffer == s.taken && !p.raising
       case Over(ending) => EndingOk(c, s, ending)
       case Wait => p.named == Some(c.pid) && s.taken == Ready(c) + Stopped(c)
       case _ => p.named == Some(c.pid) && s.taken == Ready(c) + p.buffer
  }

  /** What each ending of the parent guarantees. */
  ghost predicate EndingOk(c: Setting, s: System, ending: Ending) {
    match ending
    case Returned =>
      && s.parent.named == Some(c.pid) && s.worker == Reaped && s.supervisor.at == Exited(0)
      && s.sent == s.taken == Ready(c) + Stopped(c) && !s.parent.raising
    case Raised(Handshake) =>
      && s.parent.named == Some(c.pid) && s.worker == Reaped && s.supervisor.at.Exited?
      && s.sent == s.taken == Ready(c) + Stopped(c)
    case Raised(GroupKilled) => !s.worker.Alive? && s.supervisor.at.Exited?
    case Raised(KillDenied) => s.supervisor.at.Exited?
  }

  ghost predicate Inv(c: Setting, s: System) {
    SentOk(c, s) && ParentOk(c, s) && (s.supervisor.at.Exited? ==> !s.open)
  }

  lemma StartsOk(c: Setting)
    requires WellFramed(c)
    ensures Inv(c, START)
  {
  }

  lemma WorkerKeeps(c: Setting, s: System, a: Action, t: System)
    requires Inv(c, s) && (a == CloseInherited || a == Die) && Do(c, s, a) == Some(t)
    ensures Inv(c, t)
  {
  }

  lemma SupervisorKeeps(c: Setting, s: System, a: Action, t: System)
    requires WellFramed(c) && Inv(c, s) && DoSupervisor(c, s, a) == Some(t)
    ensures Inv(c, t)
  {
    match a
    case Write(n) => hide Inv; WriteKeeps(c, s, n, t);
    case Fork => MovesKeep(c, s, a, t);
    case Reap => MovesKeep(c, s, a, t);
    case Fail(_) => ExitKeeps(c, s, s.supervisor.control, s.worker, a, t);
    case Close => ExitKeeps(c, s, s.supervisor.control, s.worker, a, t);
    case StopTimeout => ExitKeeps(c, s, s.supervisor.control, s.worker, a, t);
    case ReadControl(_) => ControlKeeps(c, s, a, t);
    case ControlEof => ControlKeeps(c, s, a, t);
    case _ =>
  }

  lemma SpokenStays(c: Setting)
    requires WellFramed(c)
    ensures Spoken(c, Forking) == Spoken(c, SendReady(0)) && |Ready(c)| > 0
    ensures Spoken(c, Watching) == Spoken(c, Stopping) == Spoken(c, SendStopped(0)) && |Stopped(c)| > 0
  {
    assert Ready(c) + Stopped(c)[..0] == Ready(c);
  }

  lemma MovesKeep(c: Setting, s: System, a: Action, t: System)
    requires WellFramed(c) && Inv(c, s)
    requires (a == Fork || a == Reap) && DoSupervisor(c, s, a) == Some(t)
    ensures Inv(c, t)
  {
    SpokenStays(c);
    hide WellFramed, Ready, Stopped, Spoken;
    ParentUntouched(c, s, t);
    hide ParentOk;
  }

  lemma ControlKeeps(c: Setting, s: System, a: Action, t: System)
    requires WellFramed(c) && Inv(c, s) && (a.ReadControl? || a == ControlEof) && DoSupervisor(c, s, a) == Some(t)
    ensures Inv(c, t)
  {
    SpokenStays(c);
    hide WellFramed, Ready, Stopped, Spoken, Line;
    ParentUntouched(c, s, t);
    hide ParentOk;
  }

  lemma ExitKeeps(c: Setting, s: System, control: Bytes, worker: Worker, a: Action, t: System)
    requires Inv(c, s) && !s.supervisor.at.Exited? && t.supervisor.at.Exited?
    requires worker == s.worker || worker == Killed(s.worker)
    requires t == Exit(s.(worker := worker, shutdown := t.shutdown, supervisor := s.supervisor.(control := control)),
                       t.supervisor.at.code)
    requires t.supervisor.at.code == 0 ==> s.supervisor.at == Closing && worker == s.worker
    ensures Inv(c, t)
  {
    ParentUntouched(c, s, t);
    hide ParentOk, Ready, Stopped;
  }

  /** The parent's part depends on the rest only through what it has read and how it ended. */
  lemma ParentUntouched(c: Setting, s: System, t: System)
    requires ParentOk(c, s) && t.parent == s.parent && t.taken == s.taken
    requires s.sent <= t.sent
    requires !s.supervisor.at.Exited?
    ensures ParentOk(c, t)
  {
  }

  lemma WriteKeeps(c: Setting, s: System, n: nat, t: System)
    requires Inv(c, s) && !s.supervisor.at.Exited? && DoWrite(c, s, n) == Some(t)
    ensures Inv(c, t)
  {
    hide Line, Ready, Stopped;
    ParentUntouched(c, s, t);
    hide ParentOk;
    if s.supervisor.at.SendReady? {
      WriteReadyKeeps(c, s, n, t);
    } else {
      WriteStoppedKeeps(c, s, n, t);
    }
  }

  lemma WriteReadyKeeps(c: Setting, s: System, n: nat, t: System)
    requires SentOk(c, s) && s.supervisor.at.SendReady? && DoWrite(c, s, n) == Some(t)
    ensures SentOk(c, t)
  {
    hide Ready, Stopped;
    var k := s.supervisor.at.k;
    Extend(Ready(c), Stopped(c), k, n);
    assert t.sent == Ready(c)[..k + n] && t.worker == s.worker;
  }

  lemma WriteStoppedKeeps(c: Setting, s: System, n: nat, t: System)
    requires SentOk(c, s) && s.supervisor.at.SendStopped? && DoWrite(c, s, n) == Some(t)
    ensures SentOk(c, t)
  {
    hide Ready, Stopped;
    var k := s.supervisor.at.k;
    ExtendBehind(Ready(c), Stopped(c), k, n);
    assert t.sent == Ready(c) + Stopped(c)[..k + n] && t.worker == s.worker;
  }

  lemma Extend(b: Bytes, after: Bytes, k: nat, n: nat)
    requires k + n <= |b|
    ensures b[..k] + b[k..k + n] == b[..k + n] <= b + after
    ensures k + n == |b| ==> b[..k + n] == b
  {
  }

  lemma ExtendBehind(before: Bytes, b: Bytes, k: nat, n: nat)
    requires k + n <= |b|
    ensures before + b[..k] + b[k..k + n] == before + b[..k + n] <= before + b
    ensures k + n == |b| ==> b[..k + n] == b
  {
    assert b[..k] + b[k..k + n] == b[..k + n];
    assert before + b[..k] + b[k..k + n] == before + (b[..k] + b[k..k + n]);
  }

  lemma TakeKeeps(c: Setting, s: System, n: nat)
    requires s.taken <= s.sent && n <= Waiting(s)
    ensures var t := Take(s, n); t.taken <= s.sent && t.taken == s.taken + t.parent.buffer[|s.parent.buffer|..]
    ensures Take(s, n).parent.buffer == s.parent.buffer + Take(s, n).taken[|s.taken|..]
  {
  }

  /** The first line the parent can read is the supervisor's ready line. */
  lemma FirstLineIsReady(c: Setting, s: System)
    requires WellFramed(c) && s.taken <= Ready(c) + Stopped(c)
    requires Newline(s.taken) < |s.taken|
    ensures s.taken[..Newline(s.taken) + 1] == Ready(c)
  {
    var r, i := Ready(c), Newline(s.taken);
    var all := r + Stopped(c);
    assert IsLine(r);
    assert s.taken == all[..|s.taken|];
    assert all[i] == '\n';
    assert all[|r| - 1] == '\n';
    assert i < |r| ==> all[i] == r[i];
    assert s.taken[..i + 1] == all[..|r|] == r;
  }

  lemma TakeLineKeeps(c: Setting, s: System, t: System)
    requires WellFramed(c) && Inv(c, s) && DoTakeLine(c, s) == Some(t)
    ensures Inv(c, t)
  {
    FirstLineIsReady(c, s);
    assert c.parse(Ready(c)) == Some(Frame("ready", c.nonce, c.pid));
    var i := Newline(s.taken);
    assert s.taken == s.taken[..i + 1] + s.taken[i + 1..];
  }

  lemma ReadsKeep(c: Setting, s: System, n: nat, t: System)
    requires Inv(c, s) && (DoTakeReady(s, n) == Some(t) || DoTakeStopped(s, n) == Some(t))
    ensures Inv(c, t)
  {
    TakeKeeps(c, s, n);
  }

  lemma StoppedKeeps(c: Setting, s: System, t: System)
    requires WellFramed(c) && Inv(c, s) && DoStoppedEof(c, s) == Some(t)
    ensures Inv(c, t)
  {
  }

  lemma CollectKeeps(c: Setting, s: System, overlong: bool, t: System)
    requires WellFramed(c) && Inv(c, s) && DoCollect(s, overlong) == Some(t)
    ensures Inv(c, t)
  {
    assert s.taken <= s.sent <= Ready(c) + Stopped(c);
    assert s.sent == Ready(c) + Stopped(c);
  }

  lemma ForcedKeeps(c: Setting, s: System, a: Action, t: System)
    requires Inv(c, s) && a.Forced? && Do(c, s, a) == Some(t)
    ensures Inv(c, t)
  {
    hide Line, Ready, Stopped, ParentFails;
  }

  lemma RequestKeeps(c: Setting, s: System, a: Action, t: System)
    requires Inv(c, s) && (a.Seen? || a.WriteShutdown?) && Do(c, s, a) == Some(t)
    ensures Inv(c, t)
  {
    hide Line, Ready, Stopped;
  }

  lemma StepKeeps(c: Setting, s: System, a: Action, t: System)
    requires WellFramed(c) && Inv(c, s) && Do(c, s, a) == Some(t) && !a.Garble?
    ensures Inv(c, t)
  {
    hide Inv;
    match a
    case CloseInherited => WorkerKeeps(c, s, a, t);
    case Die => WorkerKeeps(c, s, a, t);
    case Forced(_, _) => ForcedKeeps(c, s, a, t);
    case TakeLine => TakeLineKeeps(c, s, t);
    case TakeReady(n) => ReadsKeep(c, s, n, t);
    case Seen(_) => RequestKeeps(c, s, a, t);
    case WriteShutdown(_) => RequestKeeps(c, s, a, t);
    case TakeStopped(n) => ReadsKeep(c, s, n, t);
    case StoppedEof => StoppedKeeps(c, s, t);
    case Collect(overlong) => CollectKeeps(c, s, overlong, t);
    case _ => SupervisorKeeps(c, s, a, t);
  }

  // -------------------------------------------------------------- whole runs

  /** Where a sequence of steps leads, if each of them can be taken. */
  function After(c: Setting, actions: seq<Action>): Option<System> {
    if actions == [] then Some(START)
    else
      var last := |actions| - 1;
      var before := After(c, actions[..last]);
      if before.None? then None else Do(c, before.value, actions[last])
  }

  /** Nobody writes to the acknowledgement pipe but the supervisor its two lines. */
  predicate Honest(actions: seq<Action>) {
    forall k :: 0 <= k < |actions| ==> !actions[k].Garble?
  }

  lemma {:induction false} Reachable(c: Setting, actions: seq<Action>)
    requires WellFramed(c) && After(c, actions).Some? && Honest(actions)
    ensures Inv(c, After(c, actions).value)
  {
    hide Inv, Do;
    if actions == [] {
      StartsOk(c);
    } else {
      var last := |actions| - 1;
      Reachable(c, actions[..last]);
      StepKeeps(c, After(c, actions[..last]).value, actions[last], After(c, actions).value);
    }
  }

  lemma {:induction false} EarlierIsReached(c: Setting, actions: seq<Action>, k: nat)
    requires After(c, actions).Some? && k <= |actions|
    ensures After(c, actions[..k]).Some?
    decreases |actions|
  {
    hide Do;
    if k == |actions| {
      assert actions[..k] == actions;
    } else {
      var last := |actions| - 1;
      assert actions[..last][..k] == actions[..k];
      EarlierIsReached(c, actions[..last], k);
    }
  }

  /** In every honest interleaving: when the parent returns, the worker named in the ready
      frame is reaped, it was so at every moment when a byte of the stopped frame
      had been sent, and the supervisor has exited with 0.  When it raises, either
      that handshake took place too, or the forced cleanup was made. */
  lemma ReturnMeansReaped(c: Setting, actions: seq<Action>)
    requires WellFramed(c) && Honest(actions) && After(c, actions).Some? && After(c, actions).value.parent.at.Over?
    ensures EndingOk(c, After(c, actions).value, After(c, actions).value.parent.at.ending)
    ensures forall k :: 0 <= k <= |actions| ==> SentAfterReaping(c, actions[..k])
  {
    Reachable(c, actions);
    forall k | 0 <= k <= |actions| ensures SentAfterReaping(c, actions[..k]) {
      EarlierIsReached(c, actions, k);
      Reachable(c, actions[..k]);
      hide After, Do, EndingOk;
    }
  }

  ghost predicate SentAfterReaping(c: Setting, actions: seq<Action>) {
    && After(c, actions).Some?
    && var s := After(c, actions).value; |s.sent| > |Ready(c)| ==> s.worker == Reaped
  }

  /** The parent leaves the protocol by collecting the supervisor after the
      handshake, or through the forced cleanup; nothing else ends it. */
  lemma EndsByCollectOrForce(c: Setting, s: System, a: Action, t: System)
    requires Do(c, s, a) == Some(t) && !s.parent.at.Over? && t.parent.at.Over?
    ensures t.parent.at.ending in {Returned, Raised(Handshake)} <==> a.Collect?
    ensures t.parent.at.ending in {Raised(GroupKilled), Raised(KillDenied)} <==> a.Forced?
    ensures a.Collect? ==> s.parent.at == Wait
  {
  }

  // --------------------------------------- the parent against any other side

  /** The bytes of a complete handshake about one worker. */
  function Handshaken(c: Setting, pid: int): Bytes {
    c.line(Frame("ready", c.nonce, pid)) + c.line(Frame("stopped", c.nonce, pid))
  }

  /** What the parent has read by the time it gets to a point, whoever wrote it. */
  ghost predicate Traced(c: Setting, s: System) {
    var p := s.parent;
    && s.taken <= s.sent && s.open == !s.supervisor.at.Exited?
    && (p.named.Some? ==> p.named.value > 0)
    && match p.at
       case ReadReady => p.buffer == s.taken
       case Watch => p.named.Some? && p.buffer == [] && s.taken == c.line(Frame("ready", c.nonce, p.named.value))
       case SendShutdown(_) =>
         p.named.Some? && p.buffer == [] && s.taken == c.line(Frame("ready", c.nonce, p.named.value))
       case ReadStopped => p.named.Some? && s.taken == c.line(Frame("ready", c.nonce, p.named.value)) + p.buffer
       case Wait => p.named.Some? && s.taken == Handshaken(c, p.named.value) && Silent(s)
       case Over(Raised(GroupKilled)) => true
       case Over(Raised(KillDenied)) => true
       case Over(_) => p.named.Some? && s.taken == Handshaken(c, p.named.value) && Silent(s)
  }

  /** All that was written has been read, and nobody is left who could write. */
  predicate Silent(s: System) { s.taken == s.sent && s.supervisor.at.Exited? && s.worker != Alive(true) }

  /** The parent is about to give up, or has: only the forced cleanup is left. */
  predicate Doomed(p: Parent) {
    || ((p.at == ReadReady || p.at == ReadStopped) && |p.buffer| > 1024)
    || p.at == Over(Raised(GroupKilled)) || p.at == Over(Raised(KillDenied))
  }

  /** An exception is on its way, or out. */
  predicate Raising(p: Parent) {
    (p.raising && !p.at.ReadReady? && !p.at.Watch? && !p.at.Over?) || (p.at.Over? && p.at.ending.Raised?)
  }

  lemma DoomedStays(c: Setting, s: System, a: Action, t: System)
    requires Do(c, s, a) == Some(t)
    ensures Doomed(s.parent) ==> Doomed(t.parent)
    ensures Raising(s.parent) ==> Raising(t.parent)
    ensures a.Forced? ==> Doomed(t.parent)
    ensures a == Seen(true) ==> Raising(t.parent)
  {
    hide Line, Newline;
  }

  lemma StepTraces(c: Setting, s: System, a: Action, t: System)
    requires WellFramed(c) && Traced(c, s) && Do(c, s, a) == Some(t)
    ensures Traced(c, t)
  {
    if t.parent == s.parent {
      assert t.taken == s.taken && s.sent <= t.sent by { OthersLeaveTaken(c, s, a, t); }
    } else if a == TakeLine {
      LineTraces(c, s, t);
    } else {
      hide WellFramed, Line;
      if a.TakeReady? || a.TakeStopped? { TakeKeeps(c, s, a.n); }
      ParentTraces(c, s, a, t);
    }
  }

  lemma OthersLeaveTaken(c: Setting, s: System, a: Action, t: System)
    requires Do(c, s, a) == Some(t) && t.parent == s.parent && s.taken <= s.sent
    ensures t.taken == s.taken && s.sent <= t.sent
  {
    hide Line, Newline, Ready, Stopped;
    if a.TakeReady? || a.TakeStopped? { TakeKeeps(c, s, a.n); }
  }

  lemma LineTraces(c: Setting, s: System, t: System)
    requires WellFramed(c) && Traced(c, s) && DoTakeLine(c, s) == Some(t)
    ensures Traced(c, t)
  {
    var i := Newline(s.parent.buffer);
    var raw := s.parent.buffer[..i + 1];
    assert s.parent.buffer == raw + s.parent.buffer[i + 1..];
    var f := c.parse(raw).value;
    assert raw == c.line(f) && f == Frame("ready", c.nonce, f.pid);
  }

  lemma ParentTraces(c: Setting, s: System, a: Action, t: System)
    requires Traced(c, s) && Do(c, s, a) == Some(t) && t.parent != s.parent && a != TakeLine
    ensures Traced(c, t)
  {
    if a.TakeReady? {
      ReadTraces(c, s, a.n, t);
    } else if a.TakeStopped? {
      ReadTraces(c, s, a.n, t);
    } else {
      assert t.taken == s.taken && t.sent == s.sent by { MovesLeavePipe(c, s, a, t); }
      MoveTraces(c, s, a, t);
    }
  }

  lemma ReadTraces(c: Setting, s: System, n: nat, t: System)
    requires Traced(c, s) && (DoTakeReady(s, n) == Some(t) || DoTakeStopped(s, n) == Some(t))
    ensures Traced(c, t)
  {
    hide Newline;
    TakeKeeps(c, s, n);
    hide Take;
    if s.parent.at == ReadStopped {
      var r, more := c.line(Frame("ready", c.nonce, s.parent.named.value)), t.taken[|s.taken|..];
      assert (r + s.parent.buffer) + more == r + (s.parent.buffer + more);
    }
  }

  lemma MovesLeavePipe(c: Setting, s: System, a: Action, t: System)
    requires Do(c, s, a) == Some(t) && t.parent != s.parent && a != TakeLine && !a.TakeReady? && !a.TakeStopped?
    ensures t.taken == s.taken && t.sent == s.sent
    ensures a.Seen? || a.WriteShutdown? || a == StoppedEof || a.Collect? || a.Forced?
  {
    hide Line, Ready, Stopped, Newline;
  }

  lemma MoveTraces(c: Setting, s: System, a: Action, t: System)
    requires Traced(c, s) && Do(c, s, a) == Some(t) && t.taken == s.taken && t.sent == s.sent
    requires a.Seen? || a.WriteShutdown? || a == StoppedEof || a.Collect? || a.Forced?
    ensures Traced(c, t)
  {
    hide ParentFails;
    if a == StoppedEof {
      assert s.taken == Handshaken(c, s.parent.named.value) && s.taken == s.sent;
    }
  }

  lemma {:induction false} EveryRunTraces(c: Setting, actions: seq<Action>)
    requires WellFramed(c) && After(c, actions).Some?
    ensures Traced(c, After(c, actions).value)
  {
    hide Traced, Do;
    if actions == [] {
      StartTraces(c);
    } else {
      var last := |actions| - 1;
      EveryRunTraces(c, actions[..last]);
      StepTraces(c, After(c, actions[..last]).value, actions[last], After(c, actions).value);
    }
  }

  lemma StartTraces(c: Setting)
    ensures Traced(c, START)
  {
  }

  lemma {:induction false} DoomedToTheEnd(c: Setting, actions: seq<Action>, k: nat)
    requires After(c, actions).Some? && k <= |actions| && After(c, actions[..k]).Some?
    ensures Doomed(After(c, actions[..k]).value.parent) ==> Doomed(After(c, actions).value.parent)
    ensures Raising(After(c, actions[..k]).value.parent) ==> Raising(After(c, actions).value.parent)
    decreases |actions|
  {
    hide Doomed, Raising, Do;
    if k == |actions| {
      assert actions[..k] == actions;
    } else {
      var last := |actions| - 1;
      assert actions[..last][..k] == actions[..k];
      DoomedToTheEnd(c, actions[..last], k);
      DoomedStays(c, After(c, actions[..last]).value, actions[last], After(c, actions).value);
    }
  }

  lemma StepDooms(c: Setting, actions: seq<Action>, k: nat)
    requires After(c, actions).Some? && k < |actions|
    ensures actions[k].Forced? ==> Doomed(After(c, actions).value.parent)
    ensures actions[k] == Seen(true) ==> Raising(After(c, actions).value.parent)
  {
    hide Doomed, Raising, Do;
    EarlierIsReached(c, actions, k);
    EarlierIsReached(c, actions, k + 1);
    var upTo := actions[..k + 1];
    assert upTo[..k] == actions[..k] && upTo[k] == actions[k];
    DoomedStays(c, After(c, actions[..k]).value, actions[k], After(c, upTo).value);
    DoomedToTheEnd(c, actions, k + 1);
  }

  ghost predicate Overlong(c: Setting, actions: seq<Action>) {
    && After(c, actions).Some?
    && var p := After(c, actions).value.parent;
       (p.at == ReadReady || p.at == ReadStopped) && |p.buffer| > 1024
  }

  predicate ByForce(p: Parent) { p.at == Over(Raised(GroupKilled)) || p.at == Over(Raised(KillDenied)) }

  lemma OtherwiseExact(c: Setting, actions: seq<Action>)
    requires WellFramed(c) && After(c, actions).Some? && After(c, actions).value.parent.at.Over?
    ensures ByForce(After(c, actions).value.parent) || exists pid :: After(c, actions).value.taken == Handshaken(c, pid)
  {
    hide *;
    EveryRunTraces(c, actions);
    TracedEnd(c, After(c, actions).value);
  }

  lemma TracedEnd(c: Setting, s: System)
    requires Traced(c, s) && s.parent.at.Over?
    ensures ByForce(s.parent) || exists pid :: s.taken == Handshaken(c, pid)
  {
    hide Handshaken;
    assert !ByForce(s.parent) ==> s.parent.named.Some? && s.taken == Handshaken(c, s.parent.named.value);
  }

  /** In every run whatsoever, whoever writes whatever to the pipe: if the bytes read
      are not the two frames of one worker, or a read passed the limit, or a step of
      the handshake timed out or failed, the parent ends through the forced cleanup.
      And if the run itself timed out, it does not return.  The third clause holds by
      what `Forced` names: a failed step is the forced cleanup, and ends the parent. */
  lemma MismatchIsForced(c: Setting, actions: seq<Action>)
    requires WellFramed(c) && After(c, actions).Some? && After(c, actions).value.parent.at.Over?
    ensures (forall pid :: After(c, actions).value.taken != Handshaken(c, pid)) ==>
              ByForce(After(c, actions).value.parent)
    ensures (exists k :: 0 <= k <= |actions| && Overlong(c, actions[..k])) ==> ByForce(After(c, actions).value.parent)
    ensures (exists k :: 0 <= k < |actions| && actions[k].Forced?) ==> ByForce(After(c, actions).value.parent)
    ensures (exists k :: 0 <= k < |actions| && actions[k] == Seen(true)) ==>
              After(c, actions).value.parent.at.ending.Raised?
  {
    hide After, WellFramed, Handshaken;
    OtherwiseExact(c, actions);
    if k :| 0 <= k <= |actions| && Overlong(c, actions[..k]) { DoomedToTheEnd(c, actions, k); }
    if k :| 0 <= k < |actions| && actions[k].Forced? { StepDooms(c, actions, k); }
    if k :| 0 <= k < |actions| && actions[k] == Seen(true) { StepDooms(c, actions, k); }
  }

  lemma {:induction false} NewlineAtEnd(w: Bytes)
    requires IsLine(w)
    ensures Newline(w) == |w| - 1
  {
  }

  lemma NotOurs(c: Setting, w: Bytes)
    requires WellFramed(c)
    requires forall pid :: pid > 0 ==> w != c.line(Frame("ready", c.nonce, pid))
    ensures !ReadyOk(c, w, [])
  {
    var f := c.parse(w);
    assert f.Some? ==> w == c.line(f.value);
  }

  lemma TakeAll(s: System, w: Bytes)
    requires s.sent == w && s.taken == [] && s.parent.buffer == []
    ensures Waiting(s) == |w| && Take(s, |w|) == s.(taken := w, parent := s.parent.(buffer := w))
  {
    assert w[0..|w|] == w && [] + w == w;
  }

  lemma StrangersLine(c: Setting, s: System, w: Bytes)
    requires IsLine(w) && |w| <= 1024 && !ReadyOk(c, w, [])
    requires s.parent == START.parent && s.taken == [] && s.sent == w
    ensures var t := s.(taken := w, parent := s.parent.(buffer := w));
            DoTakeReady(s, |w|) == Some(t) && ParentFails(c, t, TakeLine)
  {
    TakeAll(s, w);
    NewlineAtEnd(w);
    assert w[..|w|] == w && w[|w|..] == [] && Newline([]) == 0;
    hide IsLine, Take, Waiting, ReadyOk;
  }

  /** Strangers do write, while the supervisor lives and, if it is dead, as long as the worker
      holds its end: any line but a ready frame of this run, before that frame, brings on the
      forced cleanup. */
  lemma StrangersAreForced(c: Setting, w: Bytes, denied: bool)
    requires WellFramed(c) && Strange(c, w)
    ensures var early := After(c, [Garble(w), TakeReady(|w|), Forced(TakeLine, denied)]);
            early.Some? && ByForce(early.value.parent) && early.value.worker == Unborn
    ensures var late := After(c, [Fork, Fail(1), Garble(w), TakeReady(|w|), Forced(TakeLine, denied)]);
            late.Some? && ByForce(late.value.parent) && late.value.worker == if denied then Alive(true) else Zombie
  {
    var born := START.(worker := Alive(true), supervisor := START.supervisor.(at := SendReady(0)));
    var orphan := Exit(born, 1);
    assert Do(c, START, Fork) == Some(born) && Do(c, born, Fail(1)) == Some(orphan);
    StrangersEnd(c, [], START, w, denied);
    assert After(c, []) == Some(START);
    hide After, Do, WellFramed;
    Then(c, [], START, Fork, born);
    Then(c, [] + [Fork], born, Fail(1), orphan);
    StrangersEnd(c, [Fork, Fail(1)], orphan, w, denied);
    assert [] + [Fork] + [Fail(1)] == [Fork, Fail(1)];
    assert [Fork, Fail(1)] + [Garble(w), TakeReady(|w|), Forced(TakeLine, denied)]
           == [Fork, Fail(1), Garble(w), TakeReady(|w|), Forced(TakeLine, denied)];
    assert [] + [Garble(w), TakeReady(|w|), Forced(TakeLine, denied)]
           == [Garble(w), TakeReady(|w|), Forced(TakeLine, denied)];
  }

  ghost predicate Strange(c: Setting, w: Bytes) {
    IsLine(w) && |w| <= 1024 && forall pid :: pid > 0 ==> w != c.line(Frame("ready", c.nonce, pid))
  }

  lemma StrangersSteps(c: Setting, s: System, w: Bytes, denied: bool)
    requires WellFramed(c) && Strange(c, w)
    requires s.parent == START.parent && s.taken == [] && s.sent == []
    requires !s.supervisor.at.Exited? || s.worker == Alive(true)
    ensures var heard := s.(sent := w);
            var t := heard.(taken := w, parent := heard.parent.(buffer := w));
            && Do(c, s, Garble(w)) == Some(heard) && Do(c, heard, TakeReady(|w|)) == Some(t)
            && Do(c, t, Forced(TakeLine, denied)) == Some(ForceCleanup(t, denied))
  {
    hide DoSupervisor, DoTakeLine, DoWriteShutdown, DoTakeStopped, DoStoppedEof, DoCollect, ForceCleanup;
    hide DoTakeReady, ParentFails, IsLine, ReadyOk;
    var heard := s.(sent := w);
    assert s.sent + w == w;
    NotOurs(c, w);
    hide WellFramed, Strange;
    StrangersLine(c, heard, w);
  }

  lemma StrangersEnd(c: Setting, before: seq<Action>, s: System, w: Bytes, denied: bool)
    requires WellFramed(c) && Strange(c, w)
    requires After(c, before) == Some(s) && s.parent == START.parent && s.taken == [] && s.sent == []
    requires !s.supervisor.at.Exited? || s.worker == Alive(true)
    ensures var end := After(c, before + [Garble(w), TakeReady(|w|), Forced(TakeLine, denied)]);
            && end.Some? && ByForce(end.value.parent)
            && end.value.worker == if denied then s.worker else Killed(s.worker)
  {
    hide After, Do, WellFramed, Strange;
    var heard := s.(sent := w);
    var t := heard.(taken := w, parent := heard.parent.(buffer := w));
    StrangersSteps(c, s, w, denied);
    var end := ForceCleanup(t, denied);
    assert ByForce(end.parent) && end.worker == if denied then s.worker else Killed(s.worker);
    hide ForceCleanup;
    Then(c, before, s, Garble(w), heard);
    Then(c, before + [Garble(w)], heard, TakeReady(|w|), t);
    Then(c, before + [Garble(w)] + [TakeReady(|w|)], t, Forced(TakeLine, denied), end);
    assert before + [Garble(w)] + [TakeReady(|w|)] + [Forced(TakeLine, denied)]
           == before + [Garble(w), TakeReady(|w|), Forced(TakeLine, denied)];
  }

  // ------------------------------------------------ what worker and supervisor do

  /** What can become of a worker in one step. */
  predicate Lives(was: Worker, now: Worker) {
    || now == was
    || (was == Unborn && now == Alive(true))
    || (was == Alive(true) && now == Alive(false))
    || (was.Alive? && now == Zombie)
    || (was == Zombie && now == Reaped)
  }

  lemma {:induction false} ForkedOnce(c: Setting, actions: seq<Action>)
    requires After(c, actions).Some?
    ensures After(c, actions).value.supervisor.at == Forking ==> After(c, actions).value.worker == Unborn
  {
    hide Do;
    if actions != [] {
      var last := |actions| - 1;
      ForkedOnce(c, actions[..last]);
      ForkingLast(c, After(c, actions[..last]).value, actions[last], After(c, actions).value);
    }
  }

  lemma ForkingLast(c: Setting, s: System, a: Action, t: System)
    requires Do(c, s, a) == Some(t)
    ensures t.supervisor.at == Forking ==>
              s.supervisor.at == Forking && (s.worker == Unborn ==> t.worker == Unborn)
  {
    hide Line, Ready, Stopped, Newline, ParentFails, Waiting;
  }

  /** In every run the worker is born by the one fork, dies, and is reaped after that, by the
      supervisor; nobody writes to a pipe that everybody has closed. */
  lemma WorkerLives(c: Setting, actions: seq<Action>, k: nat)
    requires After(c, actions).Some? && k < |actions|
    ensures After(c, actions[..k]).Some? && After(c, actions[..k + 1]).Some?
    ensures var s, t := After(c, actions[..k]).value, After(c, actions[..k + 1]).value;
            && Lives(s.worker, t.worker)
            && (t.worker == Reaped && s.worker != Reaped ==> actions[k] == Reap && !s.supervisor.at.Exited?)
            && (t.sent != s.sent ==> !s.supervisor.at.Exited? || s.worker == Alive(true))
  {
    EarlierIsReached(c, actions, k);
    EarlierIsReached(c, actions, k + 1);
    ForkedOnce(c, actions[..k]);
    var upTo := actions[..k + 1];
    assert upTo[..k] == actions[..k] && upTo[k] == actions[k];
    hide Do;
    WorkerSteps(c, After(c, actions[..k]).value, actions[k], After(c, upTo).value);
  }

  lemma WorkerSteps(c: Setting, s: System, a: Action, t: System)
    requires Do(c, s, a) == Some(t) && (s.supervisor.at == Forking ==> s.worker == Unborn)
    ensures Lives(s.worker, t.worker)
    ensures t.worker == Reaped && s.worker != Reaped ==> a == Reap && !s.supervisor.at.Exited?
    ensures t.sent != s.sent ==> !s.supervisor.at.Exited? || s.worker == Alive(true)
  {
    hide Line, Ready, Stopped, Newline, ParentFails, Waiting, ReadyOk;
  }

  /** Why a supervisor exits, and with which status. */
  lemma SupervisorExits(c: Setting, s: System, a: Action, t: System)
    requires Do(c, s, a) == Some(t) && !s.supervisor.at.Exited?
    ensures t.supervisor.at == Exited(0) ==> a == Close && s.supervisor.at == Closing
    ensures a.ReadControl? && |t.supervisor.control| > 1024 ==> t.supervisor.at == Exited(97)
    ensures a == ControlEof && s.supervisor.control != c.line(Frame("shutdown", c.nonce, c.pid)) ==>
              t.supervisor.at == Exited(97) && (!s.supervisor.reaped ==> t.worker == Killed(s.worker))
    ensures t.supervisor.at.Exited? ==>
              || t.supervisor.at.code == 0
              || a.Fail?
              || (a.Forced? && t.supervisor.at.code == -9)
              || (t.supervisor.at.code == 97
                  && (|| (a == StopTimeout && s.supervisor.at == Stopping)
                      || (a.ReadControl? && |t.supervisor.control| > 1024)
                      || (a == ControlEof && s.supervisor.control != c.line(Frame("shutdown", c.nonce, c.pid)))))
  {
    hide Newline, ReadyOk, Ready, Stopped, Waiting;
  }

  lemma {:induction false} NewlineIsFirst(b: Bytes)
    ensures Newline(b) == |b| <==> '\n' !in b
  {
    assert Newline(b) < |b| ==> b[Newline(b)] == '\n';
  }

  /** When bytes are read: whoever reads takes at most one byte more than a frame may have,
      the parent nothing behind the first line; and when it gives a reading up. */
  lemma WhenRead(c: Setting, s: System, n: nat, denied: bool)
    ensures Do(c, s, ReadControl(n)).Some? <==>
              && s.supervisor.at == Watching
              && 0 < n <= |s.shutdown| && |s.supervisor.control| + n <= 1025
    ensures Do(c, s, TakeReady(n)).Some? <==>
              && s.parent.at == ReadReady && '\n' !in s.parent.buffer
              && 0 < n && |s.taken| + n <= |s.sent| && |s.parent.buffer| + n <= 1025
    ensures Do(c, s, TakeStopped(n)).Some? <==>
              && s.parent.at == ReadStopped
              && 0 < n && |s.taken| + n <= |s.sent| && |s.parent.buffer| + n <= 1025
    ensures Do(c, s, Forced(TakeReady(n), denied)).Some? <==>
              && s.parent.at == ReadReady && '\n' !in s.parent.buffer
              && (|s.parent.buffer| > 1024 || AtEof(s))
  {
    NewlineIsFirst(s.parent.buffer);
    hide Newline, AtEof, StoppedOk, ReadyOk, Line;
  }

  /** Every wait of the parent may fail, and nothing else of what it does; the supervisor
      gives up waiting for the worker only. */
  lemma WhenGivenUp(c: Setting, s: System, denied: bool)
    ensures (exists failing :: Do(c, s, Forced(failing, denied)).Some?) <==> !s.parent.at.Watch? && !s.parent.at.Over?
    ensures Do(c, s, StopTimeout).Some? <==> s.supervisor.at == Stopping
  {
    hide Newline, ReadyOk, StoppedOk, AtEof, ForceCleanup;
    assert s.parent.at == ReadReady ==> Do(c, s, Forced(ReadyFails, denied)).Some?;
    assert s.parent.at.SendShutdown? || s.parent.at == ReadStopped || s.parent.at == Wait ==>
        Do(c, s, Forced(HandshakeFails, denied)).Some?;
  }

  /** Steps that move bytes move some; what a forced cleanup and an overlong output end in. */
  lemma WhatStepsDo(c: Setting, s: System, a: Action, t: System)
    requires Do(c, s, a) == Some(t)
    ensures a.Write? ==> |s.sent| < |t.sent|
    ensures a.WriteShutdown? ==> s.parent.named.Some? && |s.shutdown| < |t.shutdown|
    ensures a == Collect(true) ==> t.parent.at == Over(Raised(Handshake))
    ensures a.Forced? ==> t.parent.at == Over(Raised(if a.denied then KillDenied else GroupKilled))
    ensures s.supervisor.at.Exited? ==> t.supervisor == s.supervisor
  {
    hide Newline, ReadyOk, StoppedOk, Line, Ready, Stopped, ParentFails, Waiting;
  }

  // ---------------------------------------------- runs in which nothing fails

  /** A step that is no failure, no timeout and no foreign write. */
  predicate Smooth(a: Action) { !a.Garble? && !a.Fail? && a != StopTimeout && !a.Forced? }

  predicate SmoothRun(actions: seq<Action>) { forall k :: 0 <= k < |actions| ==> Smooth(actions[k]) }

  /** What the parent has written to the shutdown pipe. */
  function Asked(c: Setting, at: ParentAt): Bytes {
    var request := Line(c, "shutdown");
    match at
    case ReadReady => []
    case Watch => []
    case SendShutdown(k) => if k < |request| then request[..k] else request
    case _ => request
  }

  /** The parent still has its end of the shutdown pipe. */
  predicate Asking(at: ParentAt) { at == ReadReady || at == Watch || at.SendShutdown? }

  /** How parent, supervisor and worker stand to each other in such a run. */
  ghost predicate InStep(c: Setting, s: System) {
    var v, p := s.supervisor, s.parent;
    && s.open == !v.at.Exited? && (v.at.Exited? ==> v.at.code == 0)
    && v.control + s.shutdown == Asked(c, p.at)
    && s.shutdownOpen == Asking(p.at)
    && (p.at.SendShutdown? ==> p.at.k < |Line(c, "shutdown")|)
    && (s.shutdownOpen ==> v.at == Forking || v.at.SendReady? || v.at == Watching)
    && (v.at == Stopping || v.at.SendStopped? || v.at == Closing || v.at.Exited? ==> s.shutdown == [])
    && WorkerInStep(s.worker, v) && ParentInStep(c, p, v)
  }

  predicate WorkerInStep(w: Worker, v: Supervisor) {
    && (w == Unborn <==> v.at == Forking)
    && (v.at == Stopping ==> w == Zombie)
    && (v.at.SendReady? || (v.at == Watching && !v.reaped) ==> w != Reaped)
  }

  ghost predicate ParentInStep(c: Setting, p: Parent, v: Supervisor) {
    match p.at
    case ReadReady => !p.raising
    case Watch => p.buffer == [] && !p.raising
    case SendShutdown(_) => p.buffer == []
    case ReadStopped => true
    case Wait => v.at == Exited(0)
    case Over(ending) => v.at == Exited(0) && ending in {Returned, Raised(Handshake)}
  }

  lemma WorkerStaysInStep(c: Setting, s: System, a: Action, t: System)
    requires InStep(c, s) && (a == CloseInherited || a == Die) && Do(c, s, a) == Some(t)
    ensures InStep(c, t)
  {
    hide Line, Asked;
  }

  lemma ControlStaysInStep(c: Setting, s: System, a: Action, t: System)
    requires WellFramed(c) && Inv(c, s) && InStep(c, s) && (a.ReadControl? || a == ControlEof)
    requires DoSupervisor(c, s, a) == Some(t)
    ensures InStep(c, t)
  {
    assert |Line(c, "shutdown")| <= FRAME_LIMIT && |Asked(c, s.parent.at)| <= |Line(c, "shutdown")|;
    assert !Asking(s.parent.at) ==> Asked(c, s.parent.at) == Line(c, "shutdown");
    hide WellFramed, Line, Asked, Ready, Stopped, ParentOk, Spoken, SentOk;
    if a.ReadControl? {
      var read, rest := s.shutdown[..a.n], s.shutdown[a.n..];
      assert (s.supervisor.control + read) + rest == s.supervisor.control + s.shutdown;
    }
  }

  lemma MovingStaysInStep(c: Setting, s: System, a: Action, t: System)
    requires Inv(c, s) && InStep(c, s) && DoSupervisor(c, s, a) == Some(t)
    requires a == Fork || a.Write? || a == Reap || a == Close
    ensures InStep(c, t)
  {
    hide Line, Asked, Ready, Stopped, ParentOk, Spoken;
  }

  lemma SupervisorStaysInStep(c: Setting, s: System, a: Action, t: System)
    requires WellFramed(c) && Inv(c, s) && InStep(c, s) && Smooth(a) && DoSupervisor(c, s, a) == Some(t)
    ensures InStep(c, t)
  {
    hide WellFramed, Inv, InStep, DoWrite, Exit;
    if a.ReadControl? || a == ControlEof { ControlStaysInStep(c, s, a, t); } else { MovingStaysInStep(c, s, a, t); }
  }

  lemma AskingStaysInStep(c: Setting, s: System, n: nat, t: System)
    requires WellFramed(c) && Inv(c, s) && InStep(c, s) && DoWriteShutdown(c, s, n) == Some(t)
    ensures InStep(c, t)
  {
    hide SentOk, WorkerInStep;
    var request, k := Line(c, "shutdown"), s.parent.at.k;
    assert request == c.line(Frame("shutdown", c.nonce, s.parent.named.value));
    var before, more := request[..k], request[k..k + n];
    assert before + more == request[..k + n] && request[..|request|] == request;
    assert (s.supervisor.control + s.shutdown) + more == s.supervisor.control + (s.shutdown + more);
    hide WellFramed, Line, Inv;
  }

  lemma ReadingStaysInStep(c: Setting, s: System, a: Action, t: System)
    requires Inv(c, s) && InStep(c, s) && Do(c, s, a) == Some(t) && (a == TakeLine || a.TakeReady? || a.TakeStopped?)
    ensures InStep(c, t)
  {
    hide Line, Newline, ReadyOk, Waiting, SentOk;
  }

  lemma TurningStaysInStep(c: Setting, s: System, a: Action, t: System)
    requires WellFramed(c) && InStep(c, s) && Do(c, s, a) == Some(t) && (a.Seen? || a == StoppedEof || a.Collect?)
    ensures InStep(c, t)
  {
    var request := Line(c, "shutdown");
    assert |request| > 0 && request[..0] == [];
    hide WellFramed, Line, StoppedOk;
  }

  lemma StaysInStep(c: Setting, s: System, a: Action, t: System)
    requires WellFramed(c) && Inv(c, s) && InStep(c, s) && Smooth(a) && Do(c, s, a) == Some(t)
    ensures InStep(c, t)
  {
    hide WellFramed, Inv, InStep;
    match a
    case CloseInherited => WorkerStaysInStep(c, s, a, t);
    case Die => WorkerStaysInStep(c, s, a, t);
    case TakeLine => ReadingStaysInStep(c, s, a, t);
    case TakeReady(_) => ReadingStaysInStep(c, s, a, t);
    case Seen(_) => TurningStaysInStep(c, s, a, t);
    case WriteShutdown(n) => AskingStaysInStep(c, s, n, t);
    case TakeStopped(_) => ReadingStaysInStep(c, s, a, t);
    case StoppedEof => TurningStaysInStep(c, s, a, t);
    case Collect(_) => TurningStaysInStep(c, s, a, t);
    case _ => SupervisorStaysInStep(c, s, a, t);
  }

  lemma {:induction false} SmoothReachable(c: Setting, actions: seq<Action>)
    requires WellFramed(c) && After(c, actions).Some? && SmoothRun(actions)
    ensures Inv(c, After(c, actions).value) && InStep(c, After(c, actions).value)
  {
    hide Inv, InStep, Do;
    if actions == [] {
      StartsOk(c);
      StartsInStep(c);
    } else {
      var last := |actions| - 1;
      SmoothReachable(c, actions[..last]);
      StepKeeps(c, After(c, actions[..last]).value, actions[last], After(c, actions).value);
      StaysInStep(c, After(c, actions[..last]).value, actions[last], After(c, actions).value);
    }
  }

  lemma StartsInStep(c: Setting)
    ensures InStep(c, START)
  {
    assert [] + [] == Asked(c, ReadReady);
  }

  lemma LineIsGood(c: Setting, s: System)
    requires WellFramed(c) && Inv(c, s) && InStep(c, s) && s.parent.at == ReadReady
    ensures |s.parent.buffer| <= FRAME_LIMIT && !AtEof(s)
    ensures var i := Newline(s.parent.buffer);
            i < |s.parent.buffer| ==> ReadyOk(c, s.parent.buffer[..i + 1], s.parent.buffer[i + 1..])
  {
    ReadyIsAllThereIs(c, s);
    if Newline(s.taken) < |s.taken| {
      FirstLineIsReady(c, s);
      assert c.parse(Ready(c)) == Some(Frame("ready", c.nonce, c.pid));
    }
  }

  lemma EndIsGood(c: Setting, s: System)
    requires WellFramed(c) && Inv(c, s) && InStep(c, s) && s.parent.at == ReadStopped
    ensures |s.parent.buffer| <= |Stopped(c)| <= FRAME_LIMIT
    ensures AtEof(s) ==> StoppedOk(c, s.parent)
  {
    assert |s.taken| <= |Ready(c)| + |Stopped(c)|;
    hide Asked, WorkerInStep;
    if AtEof(s) {
      assert s.sent == Ready(c) + Stopped(c) && s.taken == s.sent;
      assert (Ready(c) + s.parent.buffer)[|Ready(c)|..] == s.parent.buffer;
    }
  }

  /** What the parent sees in such a run is never a reason to fail. */
  lemma NothingToObjectTo(c: Setting, s: System, a: Action)
    requires WellFramed(c) && Inv(c, s) && InStep(c, s) && ParentFails(c, s, a)
    ensures a == ReadyFails || a == HandshakeFails
  {
    if s.parent.at == ReadReady { LineIsGood(c, s); }
    if s.parent.at == ReadStopped { EndIsGood(c, s); }
    hide WellFramed, Inv, InStep, Newline, ReadyOk, StoppedOk, AtEof;
  }

  lemma ReadyIsAllThereIs(c: Setting, s: System)
    requires Inv(c, s) && InStep(c, s) && Asking(s.parent.at)
    ensures s.taken <= s.sent <= Ready(c) <= Ready(c) + Stopped(c)
  {
    hide Line, Asked;
  }

  lemma NotByForce(c: Setting, s: System)
    requires InStep(c, s)
    ensures !ByForce(s.parent)
  {
    hide Asked, WorkerInStep;
  }

  lemma LastStep(c: Setting, actions: seq<Action>, a: Action)
    requires After(c, actions).Some?
    ensures After(c, actions + [a]) == Do(c, After(c, actions).value, a)
  {
    hide Do;
    assert (actions + [a])[..|actions|] == actions;
  }

  lemma ForcedFails(c: Setting, s: System, failing: Action, denied: bool)
    ensures Do(c, s, Forced(failing, denied)).Some? ==> ParentFails(c, s, failing)
  {
    hide ParentFails;
  }

  /** In every run without a failure, a timeout or a foreign write the parent never
      comes to the forced cleanup, nor has it a reason to, in whatever pieces the bytes
      arrive and whenever the worker ends. */
  lemma NoFalseAlarm(c: Setting, actions: seq<Action>, failing: Action, denied: bool)
    requires WellFramed(c) && SmoothRun(actions) && After(c, actions).Some?
    ensures !ByForce(After(c, actions).value.parent)
    ensures After(c, actions + [Forced(failing, denied)]).Some? ==> failing == ReadyFails || failing == HandshakeFails
  {
    hide Do, After, WellFramed, Inv, InStep, ParentFails, SmoothRun, ByForce;
    SmoothReachable(c, actions);
    var s := After(c, actions).value;
    NotByForce(c, s);
    LastStep(c, actions, Forced(failing, denied));
    ForcedFails(c, s, failing, denied);
    if ParentFails(c, s, failing) { NothingToObjectTo(c, s, failing); }
  }

  // ------------------------------------------------------------- can finish

  /** A step that brings the handshake on. */
  function NextStep(c: Setting, s: System): Action {
    var v, p := s.supervisor, s.parent;
    if v.at == Forking then Fork
    else if v.at.SendReady? then Write(if v.at.k <= |Ready(c)| then |Ready(c)| - v.at.k else 0)
    else if s.worker == Alive(true) then CloseInherited
    else if p.at == ReadReady then (if p.buffer == Ready(c) then TakeLine else TakeReady(Waiting(s)))
    else if p.at == Watch then Seen(false)
    else if p.at.SendShutdown? then
      WriteShutdown(if p.at.k <= |Line(c, "shutdown")| then |Line(c, "shutdown")| - p.at.k else 0)
    else if v.at == Watching then (if s.shutdown != [] then ReadControl(|s.shutdown|) else ControlEof)
    else if v.at == Stopping then Reap
    else if v.at.SendStopped? then Write(if v.at.k <= |Stopped(c)| then |Stopped(c)| - v.at.k else 0)
    else if v.at == Closing then Close
    else if p.at == ReadStopped then (if p.buffer == Stopped(c) then StoppedEof else TakeStopped(Waiting(s)))
    else Collect(false)
  }

  function SupervisorRank(c: Setting, v: Supervisor): nat {
    match v.at
    case Forking => 9
    case SendReady(_) => 7
    case Watching => if v.control == Line(c, "shutdown") then 5 else 6
    case Stopping => 4
    case SendStopped(_) => 3
    case Closing => 2
    case Exited(_) => 1
  }

  function ParentRank(c: Setting, p: Parent): nat {
    match p.at
    case ReadReady => if p.buffer == Ready(c) then 7 else 8
    case Watch => 6
    case SendShutdown(_) => 5
    case ReadStopped => if p.buffer == Stopped(c) then 3 else 4
    case Wait => 2
    case Over(_) => 0
  }

  /** How far it is to the end. */
  function Rank(c: Setting, s: System): nat {
    SupervisorRank(c, s.supervisor) + ParentRank(c, s.parent) + if s.worker == Alive(true) then 1 else 0
  }

  /** The step can be taken and brings the end nearer. */
  ghost predicate Advances(c: Setting, s: System) {
    Do(c, s, NextStep(c, s)).Some? && Rank(c, Do(c, s, NextStep(c, s)).value) < Rank(c, s)
  }

  lemma SupervisorAdvances(c: Setting, s: System)
    requires WellFramed(c) && Inv(c, s) && InStep(c, s)
    requires s.supervisor.at == Forking || s.supervisor.at.SendReady? || s.supervisor.at.SendStopped?
             || s.supervisor.at == Closing || s.supervisor.at == Stopping
    requires !Asking(s.parent.at) || s.supervisor.at == Forking || s.supervisor.at.SendReady?
    ensures Advances(c, s)
  {
    hide WellFramed, Line, Ready, Stopped, Asked, ParentOk, Spoken;
  }

  lemma ControlAdvances(c: Setting, s: System)
    requires WellFramed(c) && Inv(c, s) && InStep(c, s)
    requires s.supervisor.at == Watching && !Asking(s.parent.at) && s.worker != Alive(true)
    ensures Advances(c, s)
  {
    assert 0 < |Line(c, "shutdown")| <= FRAME_LIMIT;
    assert Asked(c, s.parent.at) == Line(c, "shutdown");
    hide WellFramed, Line, Ready, Stopped, Asked, ParentOk, Spoken, ParentRank;
    var l := s.shutdown;
    assert l[..|l|] == l && l[|l|..] == [];
    assert l == [] ==> s.supervisor.control + l == s.supervisor.control;
  }

  lemma LineAdvances(c: Setting, s: System)
    requires WellFramed(c) && Inv(c, s) && InStep(c, s)
    requires s.supervisor.at == Watching && s.parent.at == ReadReady && s.worker != Alive(true)
    requires s.parent.buffer == Ready(c)
    ensures Advances(c, s)
  {
    LineIsGood(c, s);
    NewlineAtEnd(Ready(c));
    hide WellFramed, Inv, InStep, Newline, ReadyOk, DoSupervisor, Ready;
  }

  lemma ReadingAdvances(c: Setting, s: System)
    requires WellFramed(c) && Inv(c, s) && InStep(c, s)
    requires s.supervisor.at == Watching && s.parent.at == ReadReady && s.worker != Alive(true)
    requires s.parent.buffer != Ready(c)
    ensures Advances(c, s)
  {
    NoNewlineYet(c, s);
    assert s.taken <= s.sent;
    hide WellFramed, Inv, InStep, Newline, ReadyOk, DoSupervisor, Ready, Waiting;
  }

  lemma NoNewlineYet(c: Setting, s: System)
    requires WellFramed(c) && Inv(c, s) && s.supervisor.at == Watching && s.parent.at == ReadReady
    requires s.parent.buffer != Ready(c)
    ensures s.sent == Ready(c) && 0 < Waiting(s) && |s.parent.buffer| + Waiting(s) == |Ready(c)| <= FRAME_LIMIT
    ensures s.parent.buffer + s.sent[|s.taken|..|s.taken| + Waiting(s)] == Ready(c)
    ensures Newline(s.parent.buffer) == |s.parent.buffer|
  {
    assert IsLine(Ready(c)) && s.taken == Ready(c)[..|s.taken|];
  }

  lemma GreetingAdvances(c: Setting, s: System)
    requires WellFramed(c) && Inv(c, s) && InStep(c, s)
    requires s.supervisor.at == Watching && Asking(s.parent.at) && s.worker != Alive(true)
    ensures Advances(c, s)
  {
    if s.parent.at == ReadReady {
      hide Inv, InStep, Advances;
      if s.parent.buffer == Ready(c) { LineAdvances(c, s); } else { ReadingAdvances(c, s); }
    } else {
      assert s.parent.named == Some(c.pid);
      assert s.parent.at.SendShutdown? ==> s.parent.at.k < |Line(c, "shutdown")|;
      hide WellFramed, Inv, InStep, DoSupervisor, Ready, Stopped, Newline;
    }
  }

  lemma EofAdvances(c: Setting, s: System)
    requires WellFramed(c) && Inv(c, s) && InStep(c, s)
    requires s.supervisor.at.Exited? && s.parent.at == ReadStopped && s.parent.buffer == Stopped(c)
    ensures Advances(c, s)
  {
    EndIsGood(c, s);
    assert s.worker == Reaped && !s.open && s.supervisor.at == Exited(0);
    assert s.sent == Ready(c) + Stopped(c) && |s.taken| == |s.sent|;
    assert AtEof(s);
    hide WellFramed, Inv, InStep, AtEof, StoppedOk, Ready, Stopped, DoSupervisor, Line;
  }

  lemma StillToRead(c: Setting, s: System)
    requires WellFramed(c) && Inv(c, s) && InStep(c, s)
    requires s.supervisor.at.Exited? && s.parent.at == ReadStopped && s.parent.buffer != Stopped(c)
    ensures s.taken <= s.sent && 0 < Waiting(s)
    ensures |s.parent.buffer| + Waiting(s) == |Stopped(c)| <= FRAME_LIMIT
    ensures s.parent.buffer + s.sent[|s.taken|..|s.taken| + Waiting(s)] == Stopped(c)
  {
    var ready, stopped, buffer := Ready(c), Stopped(c), s.parent.buffer;
    assert s.sent == ready + stopped && s.taken == ready + buffer && s.taken <= s.sent;
    assert |stopped| <= FRAME_LIMIT;
    hide WellFramed, Inv, InStep, Ready, Stopped;
    assert (ready + stopped)[..|ready + buffer|] == ready + stopped[..|buffer|];
    assert (ready + buffer)[|ready|..] == buffer;
    assert (ready + stopped[..|buffer|])[|ready|..] == stopped[..|buffer|];
    assert buffer == stopped[..|buffer|];
    assert s.sent[|s.taken|..] == stopped[|buffer|..];
    assert stopped[..|buffer|] + stopped[|buffer|..] == stopped;
  }

  lemma RestAdvances(c: Setting, s: System)
    requires WellFramed(c) && Inv(c, s) && InStep(c, s)
    requires s.supervisor.at.Exited? && s.parent.at == ReadStopped && s.parent.buffer != Stopped(c)
    ensures Advances(c, s)
  {
    StillToRead(c, s);
    assert s.worker == Reaped && s.supervisor.at == Exited(0);
    hide WellFramed, Inv, InStep, Ready, Stopped, DoSupervisor, Waiting;
  }

  lemma FarewellAdvances(c: Setting, s: System)
    requires WellFramed(c) && Inv(c, s) && InStep(c, s)
    requires s.supervisor.at.Exited? && !s.parent.at.Over?
    ensures Advances(c, s)
  {
    assert s.worker == Reaped && !Asking(s.parent.at) by { hide WellFramed, Asked, ParentOk; }
    hide WellFramed, Inv, InStep;
    if s.parent.at == ReadStopped {
      hide Advances;
      if s.parent.buffer == Stopped(c) { EofAdvances(c, s); } else { RestAdvances(c, s); }
    } else {
      hide Ready, Stopped, DoSupervisor, Line;
    }
  }

  lemma AlwaysAdvances(c: Setting, s: System)
    requires WellFramed(c) && Inv(c, s) && InStep(c, s) && !s.parent.at.Over?
    ensures Advances(c, s) && Smooth(NextStep(c, s))
  {
    var at := s.supervisor.at;
    if s.worker == Alive(true) && at != Forking && !at.SendReady? {
      hide Inv, InStep, WellFramed, SupervisorRank, ParentRank;
    } else {
      assert !Asking(s.parent.at) || at == Forking || at.SendReady? || at == Watching by { hide Inv, WellFramed; }
      hide Inv, InStep, WellFramed, Advances;
      if at == Watching {
        if Asking(s.parent.at) { GreetingAdvances(c, s); } else { ControlAdvances(c, s); }
      } else if at.Exited? {
        FarewellAdvances(c, s);
      } else {
        SupervisorAdvances(c, s);
      }
    }
  }

  lemma Then(c: Setting, actions: seq<Action>, s: System, a: Action, t: System)
    requires After(c, actions) == Some(s) && Do(c, s, a) == Some(t)
    ensures After(c, actions + [a]) == Some(t)
    ensures SmoothRun(actions) && Smooth(a) ==> SmoothRun(actions + [a])
  {
    hide Do, Smooth;
    assert (actions + [a])[..|actions|] == actions;
  }

  /** An exception once raised stays; a step that brings the handshake on raises none. */
  lemma RaisesNothing(c: Setting, s: System)
    requires Inv(c, s) && InStep(c, s) && !s.parent.at.Over? && Do(c, s, NextStep(c, s)).Some?
    ensures var t := Do(c, s, NextStep(c, s)).value;
            && t.parent.raising == s.parent.raising
            && (t.parent.at.Over? ==> t.parent.at == Over(if s.parent.raising then Raised(Handshake) else Returned))
  {
    hide Line, Ready, Stopped, Asked, SentOk, Newline, Waiting;
  }

  /** The handshake never gets stuck: every run without a failure, a timeout or a foreign
      write can be carried on like that until the parent has collected the supervisor, and
      then it returns unless an exception was on its way. */
  lemma {:induction false} CanFinish(c: Setting, actions: seq<Action>) returns (all: seq<Action>)
    requires WellFramed(c) && SmoothRun(actions) && After(c, actions).Some?
    requires !After(c, actions).value.parent.at.Over?
    ensures actions <= all && SmoothRun(all) && After(c, all).Some?
    ensures After(c, all).value.parent.at
            == Over(if After(c, actions).value.parent.raising then Raised(Handshake) else Returned)
    decreases Rank(c, After(c, actions).value)
  {
    hide Do, Inv, InStep, WellFramed, Advances, NextStep, Rank, SmoothRun, Smooth;
    SmoothReachable(c, actions);
    var s := After(c, actions).value;
    AlwaysAdvances(c, s);
    assert Advances(c, s) ==> Do(c, s, NextStep(c, s)).Some? && Rank(c, Do(c, s, NextStep(c, s)).value) < Rank(c, s)
      by { StepsOn(c, s); }
    var t := Do(c, s, NextStep(c, s)).value;
    RaisesNothing(c, s);
    Then(c, actions, s, NextStep(c, s), t);
    all := actions + [NextStep(c, s)];
    if !t.parent.at.Over? { all := CanFinish(c, all); }
  }

  lemma StepsOn(c: Setting, s: System)
    requires Advances(c, s)
    ensures Do(c, s, NextStep(c, s)).Some? && Rank(c, Do(c, s, NextStep(c, s)).value) < Rank(c, s)
  {
    hide Do, NextStep, Rank;
  }

  lemma EndsFirst(c: Setting) returns (s: System)
    requires WellFramed(c)
    ensures After(c, [Fork, Die, Write(|Ready(c)|), Reap]) == Some(s)
    ensures s.worker == Reaped && s.supervisor.at == Watching && s.parent == START.parent
  {
    var named := DiesEarly(c);
    var n := |Ready(c)|;
    s := named.(worker := Reaped, supervisor := named.supervisor.(reaped := true));
    assert Do(c, named, Reap) == Some(s) by { hide WellFramed, Ready, After; }
    hide Do, After, WellFramed, Ready;
    Then(c, [Fork, Die, Write(n)], named, Reap, s);
    assert [Fork, Die, Write(n)] + [Reap] == [Fork, Die, Write(n), Reap];
  }

  lemma DiesEarly(c: Setting) returns (named: System)
    requires WellFramed(c)
    ensures After(c, [Fork, Die, Write(|Ready(c)|)]) == Some(named) && named.parent == START.parent
    ensures named.worker == Zombie && named.supervisor.at == Watching
  {
    var born := START.(worker := Alive(true), supervisor := START.supervisor.(at := SendReady(0)));
    var dead := born.(worker := Zombie);
    named := dead.(sent := Ready(c), supervisor := dead.supervisor.(at := Watching));
    var n := |Ready(c)|;
    assert n > 0 && Ready(c)[0..n] == Ready(c) && [] + Ready(c) == Ready(c);
    hide WellFramed, Ready;
    assert Do(c, dead, Write(n)) == Some(named) by { hide After; }
    assert Do(c, START, Fork) == Some(born) && Do(c, born, Die) == Some(dead) by { hide After; }
    assert After(c, []) == Some(START);
    hide Do, After;
    Then(c, [], START, Fork, born);
    Then(c, [] + [Fork], born, Die, dead);
    Then(c, [] + [Fork] + [Die], dead, Write(n), named);
    assert [] + [Fork] + [Die] + [Write(n)] == [Fork, Die, Write(n)];
  }

  /** A worker that ends by itself, and is reaped before anybody asks, is no obstacle. */
  lemma WorkerMayEndFirst(c: Setting) returns (all: seq<Action>)
    requires WellFramed(c)
    ensures [Fork, Die, Write(|Ready(c)|), Reap] <= all && SmoothRun(all)
    ensures After(c, all).Some? && After(c, all).value.parent.at == Over(Returned)
  {
    hide Do, After, WellFramed, Ready;
    var s := EndsFirst(c);
    all := CanFinish(c, [Fork, Die, Write(|Ready(c)|), Reap]);
  }

  /** What `ReturnMeansReaped` speaks of happens. */
  lemma QuietRunReturns(c: Setting) returns (actions: seq<Action>)
    requires WellFramed(c)
    ensures After(c, actions).Some? && SmoothRun(actions) && After(c, actions).value.parent.at == Over(Returned)
  {
    actions := CanFinish(c, []);
  }

  // ------------------------------------------------------ a setting in being

  /** A character without newlines, told apart from the end mark. */
  function Code(c: char): string {
    if c == '\n' then "\\n" else if c == '\\' then "\\\\" else [c]
  }

  function Spell(s: string): string {
    if s == [] then "\\." else Code(s[0]) + Spell(s[1..])
  }

  function Tally(n: int): string {
    if n < 0 then "-" + seq(-n, _ => '1') else seq(n, _ => '1')
  }

  function SpelledLine(f: Frame): Bytes { Spell(f.event) + (Spell(f.nonce) + (Tally(f.pid) + "\n")) }

  ghost function SpelledFrame(b: Bytes): Option<Frame> {
    if f: Frame :| SpelledLine(f) == b then Some(f) else None
  }

  lemma {:induction false} SpellShape(s: string)
    ensures |s| + 2 <= |Spell(s)| <= 2 * |s| + 2 && '\n' !in Spell(s)
  {
    if s != [] { SpellShape(s[1..]); }
  }

  lemma CodeIsFirst(c: char, x: string, d: char, y: string)
    requires |x| >= 2 && |y| >= 2
    ensures Code(c) + x == Code(d) + y ==> c == d && x == y
  {
    var left, right := Code(c) + x, Code(d) + y;
    assert left[0] == Code(c)[0] && right[0] == Code(d)[0];
    assert |Code(c)| == 2 ==> left[1] == Code(c)[1];
    assert |Code(d)| == 2 ==> right[1] == Code(d)[1];
    assert left[|Code(c)|..] == x && right[|Code(d)|..] == y;
  }

  lemma {:induction false} SpellIsUndone(a: string, x: string, b: string, y: string)
    requires Spell(a) + x == Spell(b) + y
    ensures a == b && x == y
  {
    hide Code;
    if a != [] && b != [] {
      Split(a, x);
      Split(b, y);
      CodeIsFirst(a[0], Spell(a[1..]) + x, b[0], Spell(b[1..]) + y);
      SpellIsUndone(a[1..], x, b[1..], y);
    } else if a != [] {
      Split(a, x);
      MarkIsNoCode(a[0], Spell(a[1..]) + x, y);
    } else if b != [] {
      Split(b, y);
      MarkIsNoCode(b[0], Spell(b[1..]) + y, x);
    } else {
      assert (Spell(a) + x)[2..] == x && (Spell(b) + y)[2..] == y;
    }
  }

  lemma Split(a: string, x: string)
    requires a != []
    ensures Spell(a) + x == Code(a[0]) + (Spell(a[1..]) + x) && |Spell(a[1..]) + x| >= 2
  {
    hide Code;
    SpellShape(a[1..]);
  }

  lemma MarkIsNoCode(c: char, x: string, y: string)
    requires |x| >= 2
    ensures Code(c) + x != "\\." + y
  {
    assert (Code(c) + x)[0] == Code(c)[0] && ("\\." + y)[0] == '\\' && ("\\." + y)[1] == '.';
    assert |Code(c)| == 2 ==> (Code(c) + x)[1] == Code(c)[1];
  }

  lemma SpelledLineIsInjective(f: Frame, g: Frame)
    requires SpelledLine(f) == SpelledLine(g)
    ensures f == g
  {
    hide Spell;
    var x, y := Tally(f.pid) + "\n", Tally(g.pid) + "\n";
    SpellIsUndone(f.event, Spell(f.nonce) + x, g.event, Spell(g.nonce) + y);
    SpellIsUndone(f.nonce, x, g.nonce, y);
    assert x[0] == y[0] && |x| == |y|;
  }

  lemma SpelledLineIsLine(f: Frame)
    ensures IsLine(SpelledLine(f))
    ensures |SpelledLine(f)| <= 2 * |f.event| + 2 * |f.nonce| + |Tally(f.pid)| + 5
  {
    hide Spell;
    SpellShape(f.event);
    SpellShape(f.nonce);
    var all := SpelledLine(f);
    var front := Spell(f.event) + (Spell(f.nonce) + Tally(f.pid));
    assert all == front + "\n";
    assert '\n' !in front;
    assert forall i :: 0 <= i < |all| - 1 ==> all[i] == front[i];
  }

  lemma SpelledFrameIsInverse(b: Bytes, f: Frame)
    ensures SpelledFrame(b) == Some(f) <==> b == SpelledLine(f)
  {
    hide SpelledLine;
    if SpelledFrame(b).Some? && b == SpelledLine(f) { SpelledLineIsInjective(f, SpelledFrame(b).value); }
  }

  /** For every nonce of the length in use there is a setting as the statements above
      require, so none of them is empty. */
  lemma SettingExists(nonce: string) returns (c: Setting)
    requires |nonce| == 64
    ensures WellFramed(c) && c.nonce == nonce
  {
    hide SpelledLine, SpelledFrame;
    c := Setting(SpelledLine, SpelledFrame, nonce, 1);
    forall f ensures IsLine(c.line(f)) { SpelledLineIsLine(f); }
    forall b, f ensures c.parse(b) == Some(f) <==> b == c.line(f) { SpelledFrameIsInverse(b, f); }
    SpelledLineIsLine(Frame("ready", nonce, 1));
    SpelledLineIsLine(Frame("shutdown", nonce, 1));
    SpelledLineIsLine(Frame("stopped", nonce, 1));
  }
}
