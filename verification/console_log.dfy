/** The level-gated console logger. Its two static fields, the level and the
    output service, become the fields of one ConsoleLog object; what the
    service prints is recorded as a ghost list of forwarded calls. */
module ConsoleLogging {
  import opened Common
  import opened Text

  /** LogLevel: Debug = 0, Info = 1, Warn = 2, Error = 3, Fatal = 4. The field
      holds any int, since SetNoLog stores (LogLevel)5. */
  const Debug: int := 0
  const Info: int := 1
  const Warn: int := 2
  const Error: int := 3
  const Fatal: int := 4
  const NoLog: int := 5

  /** The output service's four entry points. */
  datatype Channel = InfoChannel | WarningChannel | ErrorChannel | FatalChannel

  /** The five logging calls of ConsoleLog. */
  datatype Call = InfoCall | WarningCall | ErrorCall | FatalCall | DebugCall

  /** A forwarded call: which service received it, on which channel, with
      which type and message. */
  datatype Event = Event(service: nat, channel: Channel, kind: string, message: string)

  /** The level and the output service, the state the setters change. */
  datatype Config = Config(level: int, service: nat)

  /** The service installed at start-up, YukariConsoleLoggerService. */
  const DefaultService: nat := 0

  const Initial: Config := Config(Info, DefaultService)

  /** The gate of each call: the channel it forwards to at this level, or None
      when it returns without forwarding. */
  function Forwarded(level: int, call: Call): (r: Option<Channel>)
    ensures call == InfoCall ==> (r.Some? <==> level <= Info) && (r.Some? ==> r.value == InfoChannel)
    ensures call == WarningCall ==> (r.Some? <==> level <= Warn) && (r.Some? ==> r.value == WarningChannel)
    ensures call == ErrorCall ==> (r.Some? <==> level <= Error) && (r.Some? ==> r.value == ErrorChannel)
    ensures call == FatalCall ==> (r.Some? <==> level <= Fatal) && (r.Some? ==> r.value == FatalChannel)
    ensures call == DebugCall ==> (r.Some? <==> level == Debug) && (r.Some? ==> r.value == FatalChannel)
  {
    match call
    case InfoCall => if level > Info then None else Some(InfoChannel)
    case WarningCall => if level > Warn then None else Some(WarningChannel)
    case ErrorCall => if level > Error then None else Some(ErrorChannel)
    case FatalCall => if level > Fatal then None else Some(FatalChannel)
    case DebugCall => if level != Debug then None else Some(FatalChannel)
  }

  /** After SetNoLog nothing is forwarded. */
  lemma NoLogSilences(call: Call)
    ensures Forwarded(NoLog, call).None?
  {
  }

  /** Lowering the level never silences a call other than Debug, and raising
      it never lets more through. */
  lemma GatesMonotone(low: int, high: int, call: Call)
    requires low <= high && call != DebugCall
    ensures Forwarded(high, call).Some? ==> Forwarded(low, call) == Forwarded(high, call)
  {
  }

  /** Debug output goes to the Fatal channel, and only at level Debug; at the
      start-up level Info every other call is forwarded and Debug is not. */
  lemma DebugGate(level: int)
    ensures Forwarded(level, DebugCall).Some? <==> level == Debug
    ensures Forwarded(level, DebugCall).Some? ==> Forwarded(level, DebugCall) == Forwarded(level, FatalCall)
    ensures Forwarded(Info, DebugCall).None?
    ensures Forwarded(Info, InfoCall).Some? && Forwarded(Info, WarningCall).Some?
            && Forwarded(Info, ErrorCall).Some? && Forwarded(Info, FatalCall).Some?
  {
  }

  /** A call to one of the three setters. */
  datatype Setting = SetLevel(level: int) | SetNone | SetService(service: nat)

  /** A level SetLogLevel accepts. */
  predicate InRange(level: int) {
    Debug <= level <= Fatal
  }

  /** The setters as written: SetLogLevel checks its argument and then assigns
      the parameter to itself, and SetLoggerService assigns its parameter to
      itself, so neither changes the state; only SetNoLog does. */
  function Apply(c: Config, s: Setting): (r: Result<Config, Fault>)
    ensures r.Err? <==> s.SetLevel? && !InRange(s.level)
    ensures r.Err? ==> r.error == Unhandled(LevelOutOfRange)
    ensures r.Ok? ==> r.value.service == c.service
    ensures r.Ok? ==> r.value.level == (if s.SetNone? then NoLog else c.level)
  {
    match s
    case SetLevel(n) => if n < Debug || n > Fatal then Err(Unhandled(LevelOutOfRange)) else Ok(c)
    case SetNone => Ok(c.(level := NoLog))
    case SetService(_) => Ok(c)
  }

  /** The setters as evidently intended: an accepted level and a new service
      replace the stored ones. */
  function ApplyFixed(c: Config, s: Setting): (r: Result<Config, Fault>)
    ensures r.Err? <==> s.SetLevel? && !InRange(s.level)
    ensures r.Err? ==> r.error == Unhandled(LevelOutOfRange)
    ensures s.SetLevel? && r.Ok? ==> r.value == Config(s.level, c.service)
    ensures s.SetNone? ==> r == Ok(Config(NoLog, c.service))
    ensures s.SetService? ==> r == Ok(Config(c.level, s.service))
  {
    match s
    case SetLevel(n) => if n < Debug || n > Fatal then Err(Unhandled(LevelOutOfRange)) else Ok(Config(n, c.service))
    case SetNone => Ok(c.(level := NoLog))
    case SetService(l) => Ok(c.(service := l))
  }

  /** The state after a run of setter calls; a call that throws leaves the
      state as it was. */
  function Run(c: Config, ops: seq<Setting>): Config
    decreases |ops|
  {
    if ops == [] then c
    else
      var before := Run(c, ops[..|ops| - 1]);
      var r := Apply(before, ops[|ops| - 1]);
      if r.Ok? then r.value else before
  }

  function RunFixed(c: Config, ops: seq<Setting>): Config
    decreases |ops|
  {
    if ops == [] then c
    else
      var before := RunFixed(c, ops[..|ops| - 1]);
      var r := ApplyFixed(before, ops[|ops| - 1]);
      if r.Ok? then r.value else before
  }

  /** As written, no run of setter calls changes the service, and the level is
      either where it started or NoLog. */
  lemma {:induction false} SettersAsWritten(c: Config, ops: seq<Setting>)
    ensures Run(c, ops).service == c.service
    ensures Run(c, ops).level == c.level || Run(c, ops).level == NoLog
  {
    if ops != [] {
      SettersAsWritten(c, ops[..|ops| - 1]);
    }
  }

  /** Hence, from start-up, Debug output can never be switched on and the
      default service is never replaced. */
  lemma DebugNeverEnabled(ops: seq<Setting>)
    ensures Forwarded(Run(Initial, ops).level, DebugCall).None?
    ensures Run(Initial, ops).service == DefaultService
  {
    SettersAsWritten(Initial, ops);
  }

  /** With the intended setters, the last accepted setting of each kind
      decides: after SetLevel(n) with n in range the level is n, after
      SetService(l) the service is l, and each leaves the other field alone. */
  lemma SettersFixed(c: Config, ops: seq<Setting>, s: Setting)
    ensures s.SetLevel? && InRange(s.level) ==>
              RunFixed(c, ops + [s]) == Config(s.level, RunFixed(c, ops).service)
    ensures s.SetService? ==> RunFixed(c, ops + [s]) == Config(RunFixed(c, ops).level, s.service)
    ensures s.SetNone? ==> RunFixed(c, ops + [s]) == Config(NoLog, RunFixed(c, ops).service)
  {
    assert (ops + [s])[..|ops + [s]| - 1] == ops;
  }

  /** The logger, with the service's output recorded in `events`. */
  class ConsoleLog {
    var level: int
    var service: nat
    ghost var events: seq<Event>

    function State(): Config
      reads this
    {
      Config(level, service)
    }

    /** The start-up state: level Info, the default service, nothing logged. */
    constructor ()
      ensures State() == Initial && events == []
    {
      level := Info;
      service := DefaultService;
      events := [];
    }

    /** SetLogLevel as written: an argument outside Debug..Fatal raises
      ArgumentOutOfRangeException; otherwise the parameter is assigned to
      itself and the level stays as it was. */
    method SetLogLevel(newLevel: int) returns (r: Outcome<Fault>)
      modifies this
      ensures var a := Apply(old(State()), SetLevel(newLevel));
              && (a.Err? ==> r == Fail(a.error) && State() == old(State()))
              && (a.Ok? ==> r == Pass && State() == a.value)
      ensures level == old(level) && service == old(service) && events == old(events)
    {
      if newLevel < Debug || newLevel > Fatal {
        return Fail(Unhandled(LevelOutOfRange));
      }
      r := Pass;
    }

    /** SetLogLevel as evidently intended: an accepted level is stored. */
    method SetLogLevelFixed(newLevel: int) returns (r: Outcome<Fault>)
      modifies this
      ensures var a := ApplyFixed(old(State()), SetLevel(newLevel));
              && (a.Err? ==> r == Fail(a.error) && State() == old(State()))
              && (a.Ok? ==> r == Pass && State() == a.value)
      ensures events == old(events)
    {
      if newLevel < Debug || newLevel > Fatal {
        return Fail(Unhandled(LevelOutOfRange));
      }
      level := newLevel;
      r := Pass;
    }

    /** SetNoLog: stores (LogLevel)5, above every gate. */
    method SetNoLog()
      modifies this
      ensures State() == Apply(old(State()), SetNone).value
      ensures level == NoLog && service == old(service) && events == old(events)
    {
      level := NoLog;
    }

    /** SetLoggerService as written: the parameter is assigned to itself. */
    method SetLoggerService(newService: nat)
      modifies this
      ensures State() == Apply(old(State()), SetService(newService)).value
      ensures service == old(service) && level == old(level) && events == old(events)
    {
    }

    /** SetLoggerService as evidently intended: the new service is installed. */
    method SetLoggerServiceFixed(newService: nat)
      modifies this
      ensures State() == ApplyFixed(old(State()), SetService(newService)).value
      ensures service == newService && level == old(level) && events == old(events)
    {
      service := newService;
    }

    /** What one logging call records at the current state. */
    function Emitted(call: Call, kind: string, message: string): seq<Event>
      reads this
    {
      match Forwarded(level, call)
      case None => []
      case Some(channel) => [Event(service, channel, kind, message)]
    }

    method LogInfo(kind: string, message: string)
      modifies this`events
      ensures events == old(events) + Emitted(InfoCall, kind, message)
    {
      if level > Info {
        return;
      }
      events := events + [Event(service, InfoChannel, kind, message)];
    }

    method LogWarning(kind: string, message: string)
      modifies this`events
      ensures events == old(events) + Emitted(WarningCall, kind, message)
    {
      if level > Warn {
        return;
      }
      events := events + [Event(service, WarningChannel, kind, message)];
    }

    method LogError(kind: string, message: string)
      modifies this`events
      ensures events == old(events) + Emitted(ErrorCall, kind, message)
    {
      if level > Error {
        return;
      }
      events := events + [Event(service, ErrorChannel, kind, message)];
    }

    method LogFatal(kind: string, message: string)
      modifies this`events
      ensures events == old(events) + Emitted(FatalCall, kind, message)
    {
      if level > Fatal {
        return;
      }
      events := events + [Event(service, FatalChannel, kind, message)];
    }

    /** Debug: forwarded only at level Debug, and then to the Fatal channel. */
    method LogDebug(kind: string, message: string)
      modifies this`events
      ensures events == old(events) + Emitted(DebugCall, kind, message)
    {
      if level != Debug {
        return;
      }
      events := events + [Event(service, FatalChannel, kind, message)];
    }
  }

  /** The pieces ErrorLogBuilder appends around the exception's fields. */
  const CrLf: string := "\r\n"
  const ErrorBanner: string := "==============ERROR==============\r\n"
  const ErrorLabel: string := "Error:"
  const Gap: string := "\r\n\r\n"
  const MessageLabel: string := "Message:"
  const TraceLabel: string := "Stack Trace:\r\n"
  const ClosingRule: string := "=================================\r\n"

  const ErrorHead: string := CrLf + ErrorBanner + ErrorLabel
  const TypeSep: string := Gap + MessageLabel
  const MessageSep: string := Gap + TraceLabel
  const ErrorTail: string := CrLf + ClosingRule

  /** Where each piece of a seven-part concatenation sits. */
  lemma PiecesInOrder(s: string, a: string, b: string, c: string, d: string, e: string, f: string, g: string)
    requires s == a + b + c + d + e + f + g
    ensures StartsWith(s, a) && EndsWith(s, g)
    ensures OccursAt(s, b + c, |a|)
    ensures OccursAt(s, d + e, |a| + |b| + |c|)
    ensures OccursAt(s, f, |a| + |b| + |c| + |d| + |e|)
    ensures |s| == |a| + |b| + |c| + |d| + |e| + |f| + |g|
  {
    var i := |a| + |b| + |c|;
    var j := i + |d| + |e|;
    assert s[..|a|] == a;
    assert s[|a|..i] == b + c;
    assert s[i..j] == d + e;
    assert s[j..j + |f|] == f;
    assert s[|s| - |g|..] == g;
  }

  /** ErrorLogBuilder: the exception's type name, message and stack trace
      between a fixed banner and a closing rule, appended piece by piece. A
      null stack trace appends nothing and is passed as "". */
  method ErrorLogBuilder(typeName: string, message: string, stackTrace: string) returns (r: string)
    ensures StartsWith(r, ErrorHead) && EndsWith(r, ErrorTail)
    ensures OccursAt(r, typeName + TypeSep, |ErrorHead|)
    ensures OccursAt(r, message + MessageSep, |ErrorHead| + |typeName| + |TypeSep|)
    ensures OccursAt(r, stackTrace, |ErrorHead| + |typeName| + |TypeSep| + |message| + |MessageSep|)
    ensures |r| == |ErrorHead| + |typeName| + |TypeSep| + |message| + |MessageSep| + |stackTrace| + |ErrorTail|
  {
    var builder := "";
    builder := builder + CrLf;
    builder := builder + ErrorBanner;
    builder := builder + ErrorLabel;
    assert builder == ErrorHead;
    builder := builder + typeName;
    builder := builder + Gap;
    builder := builder + MessageLabel;
    assert builder == ErrorHead + typeName + TypeSep;
    builder := builder + message;
    builder := builder + Gap;
    builder := builder + TraceLabel;
    assert builder == ErrorHead + typeName + TypeSep + message + MessageSep;
    builder := builder + stackTrace;
    builder := builder + CrLf;
    builder := builder + ClosingRule;
    r := builder;
    assert r == ErrorHead + typeName + TypeSep + message + MessageSep + stackTrace + ErrorTail;
    PiecesInOrder(r, ErrorHead, typeName, TypeSep, message, MessageSep, stackTrace, ErrorTail);
  }
}
