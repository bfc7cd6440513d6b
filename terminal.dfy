/** The terminal screen of a mission: the typed input, the log, the
    idle/error/success status and the "hint in flight" flag, with the submit
    handler that checks the answer. Each handler is a step function on a
    `Screen`; the class `TerminalView` holds the same state in fields and
    its methods are proved to perform those steps. */
module Terminal {
  import opened Types
  import opened AnswerCheck
  import Catalog

  datatype Status = Idle | Error | Success

  datatype LogType = InfoLog | SuccessLog | ErrorLog | WarningLog

  /** The messages the terminal logs, with the text each one prints. */
  datatype Message =
    | Boot
    | Echo(input: string)
    | Granted
    | Reward
    | Denied
    | HintRequest
    | HintReply(hint: string)

  function MessageText(m: Message): string
  {
    match m
    case Boot => "INICIALIZANDO CONEXÃO SEGURA [SECURE_SOCKET_LAYER]..."
    case Echo(input) => "> " + input
    case Granted => "HASH VERIFICADO. ACESSO CONCEDIDO."
    case Reward => "EXECUTANDO SCRIPT DE RECOMPENSA..."
    case Denied => "ERRO DE SINTAXE OU HASH INVÁLIDO. ACESSO NEGADO."
    case HintRequest => "ESTABELECENDO UPLINK NEURAL COM O ORÁCULO..."
    case HintReply(hint) => "RESPOSTA DO ORÁCULO: " + hint
  }

  /** One log line: its type and its message; the time stamp printed in
      front of it is not modelled. */
  datatype LogEntry = LogEntry(kind: LogType, message: Message)

  const BootEntry: LogEntry := LogEntry(InfoLog, Boot)
  const GrantedEntry: LogEntry := LogEntry(SuccessLog, Granted)
  const RewardEntry: LogEntry := LogEntry(SuccessLog, Reward)
  const DeniedEntry: LogEntry := LogEntry(ErrorLog, Denied)
  const HintRequestEntry: LogEntry := LogEntry(WarningLog, HintRequest)

  function EchoEntry(input: string): LogEntry
  {
    LogEntry(InfoLog, Echo(input))
  }

  function HintReplyEntry(hint: string): LogEntry
  {
    LogEntry(WarningLog, HintReply(hint))
  }

  /** The component state of the terminal. */
  datatype Screen = Screen(input: string, logs: seq<LogEntry>, status: Status, isGettingHint: bool)

  /** What a submission produces: the new screen and the mission id handed
      to the completion callback, if any. */
  datatype Outcome = Outcome(screen: Screen, completed: Option<string>)

  // ---------------------------------------------------------------------
  // The steps
  // ---------------------------------------------------------------------

  /** The state right after the terminal opens for a mission. */
  const Opened: Screen := Screen("", [BootEntry], Idle, false)

  /** The input field is disabled once the answer is accepted. */
  predicate InputEnabled(sc: Screen)
  {
    sc.status != Success
  }

  /** The submit button is disabled after success and while the input is empty. */
  predicate SubmitEnabled(sc: Screen)
  {
    sc.status != Success && sc.input != ""
  }

  /** The hint button is disabled while a hint is in flight and after success. */
  predicate HintEnabled(sc: Screen)
  {
    !sc.isGettingHint && sc.status != Success
  }

  /** Typing replaces the input, unless the field is disabled. */
  function Typed(sc: Screen, text: string): Screen
  {
    if InputEnabled(sc) then sc.(input := text) else sc
  }

  /** The submit handler: whitespace-only input is ignored; otherwise the
      input is echoed, then either the answer is accepted (status success,
      two success lines, completion of the mission) or refused (status
      error, one error line, input cleared). */
  function Submitted(sc: Screen, mission: Mission): Outcome
  {
    if Trim(sc.input) == [] then Outcome(sc, None)
    else
      var echoed := sc.logs + [EchoEntry(sc.input)];
      if Accepts(sc.input, mission.answerHash) then
        Outcome(sc.(status := Success, logs := echoed + [GrantedEntry, RewardEntry]), Some(mission.id))
      else
        Outcome(sc.(status := Error, logs := echoed + [DeniedEntry], input := ""), None)
  }

  /** A submission can only reach the handler while the controls allow it. */
  function Pressed(sc: Screen, mission: Mission): Outcome
  {
    if SubmitEnabled(sc) then Submitted(sc, mission) else Outcome(sc, None)
  }

  /** Asking for a hint: flag raised and a warning line, if the button is enabled. */
  function HintRequested(sc: Screen): Screen
  {
    if HintEnabled(sc) then sc.(isGettingHint := true, logs := sc.logs + [HintRequestEntry]) else sc
  }

  /** The hint service's answer (or its fallback text) arrives. */
  function HintReceived(sc: Screen, hint: string): Screen
  {
    sc.(logs := sc.logs + [HintReplyEntry(hint)], isGettingHint := false)
  }

  /** The user-driven events of one terminal session. */
  datatype Event = TypeText(text: string) | PressSubmit | AskHint | HintArrives(hint: string)

  /** The effect of one event on the screen. */
  function Step(sc: Screen, mission: Mission, e: Event): Outcome
  {
    match e
    case TypeText(text) => Outcome(Typed(sc, text), None)
    case PressSubmit => Pressed(sc, mission)
    case AskHint => Outcome(HintRequested(sc), None)
    case HintArrives(hint) => Outcome(HintReceived(sc, hint), None)
  }

  /** The screen after a sequence of events, and the ids passed to the
      completion callback along the way. */
  function Replay(sc: Screen, mission: Mission, events: seq<Event>): (Screen, seq<string>)
    decreases |events|
  {
    if events == [] then (sc, [])
    else
      var step := Step(sc, mission, events[0]);
      var rest := Replay(step.screen, mission, events[1..]);
      (rest.0, (if step.completed.Some? then [step.completed.value] else []) + rest.1)
  }

  // ---------------------------------------------------------------------
  // What the steps guarantee
  // ---------------------------------------------------------------------

  /** Empty or whitespace-only input: no log line, no status change, no completion. */
  lemma BlankInputIgnored(sc: Screen, mission: Mission)
    requires Trim(sc.input) == []
    ensures Submitted(sc, mission) == Outcome(sc, None)
  {
  }

  /** A real submission: the echo goes first, then the verdict. When the
      normalised input equals the normalised answer, the status becomes
      success, the two success lines follow the echo, the input is kept and
      this mission's id is reported; otherwise the status becomes error, the
      refusal line follows the echo, the input is cleared and nothing is
      reported. */
  lemma SubmissionVerdict(sc: Screen, mission: Mission)
    requires Trim(sc.input) != []
    ensures Normalize(sc.input) == Normalize(mission.answerHash) ==>
      Submitted(sc, mission) ==
        Outcome(sc.(status := Success, logs := sc.logs + [EchoEntry(sc.input), GrantedEntry, RewardEntry]),
                Some(mission.id))
    ensures Normalize(sc.input) != Normalize(mission.answerHash) ==>
      Submitted(sc, mission) ==
        Outcome(sc.(status := Error, logs := sc.logs + [EchoEntry(sc.input), DeniedEntry], input := ""), None)
  {
    assert sc.logs + [EchoEntry(sc.input)] + [GrantedEntry, RewardEntry]
      == sc.logs + [EchoEntry(sc.input), GrantedEntry, RewardEntry];
    assert sc.logs + [EchoEntry(sc.input)] + [DeniedEntry] == sc.logs + [EchoEntry(sc.input), DeniedEntry];
  }

  /** One event never shortens the log, and it reports only this mission's
      id and only together with success. */
  lemma StepFacts(sc: Screen, mission: Mission, e: Event)
    ensures sc.logs <= Step(sc, mission, e).screen.logs
    ensures Step(sc, mission, e).completed.Some? ==>
      Step(sc, mission, e).completed.value == mission.id && Step(sc, mission, e).screen.status == Success
  {
    match e
    case PressSubmit =>
      if SubmitEnabled(sc) && Trim(sc.input) != [] {
        SubmissionVerdict(sc, mission);
      }
    case _ =>
  }

  /** After success one event changes neither the status nor the input and
      reports nothing. */
  lemma StepAfterSuccess(sc: Screen, mission: Mission, e: Event)
    requires sc.status == Success
    ensures Step(sc, mission, e).screen.status == Success
    ensures Step(sc, mission, e).screen.input == sc.input
    ensures Step(sc, mission, e).completed == None
  {
  }

  /** Once the answer is accepted, nothing the user does changes the input
      or the status, and no further completion is reported. */
  lemma {:induction false} SuccessIsAbsorbing(sc: Screen, mission: Mission, events: seq<Event>)
    requires sc.status == Success
    ensures Replay(sc, mission, events).0.status == Success
    ensures Replay(sc, mission, events).0.input == sc.input
    ensures Replay(sc, mission, events).1 == []
    decreases |events|
  {
    if events != [] {
      StepAfterSuccess(sc, mission, events[0]);
      SuccessIsAbsorbing(Step(sc, mission, events[0]).screen, mission, events[1..]);
    }
  }

  /** In one terminal session the completion callback is invoked at most
      once, and only with this mission's id; the log only grows. */
  lemma {:induction false} CompletionReportedAtMostOnce(sc: Screen, mission: Mission, events: seq<Event>)
    ensures |Replay(sc, mission, events).1| <= (if sc.status == Success then 0 else 1)
    ensures forall id :: id in Replay(sc, mission, events).1 ==> id == mission.id
    ensures sc.logs <= Replay(sc, mission, events).0.logs
    decreases |events|
  {
    if events != [] {
      var step := Step(sc, mission, events[0]);
      StepFacts(sc, mission, events[0]);
      CompletionReportedAtMostOnce(step.screen, mission, events[1..]);
      if step.completed.Some? {
        SuccessIsAbsorbing(step.screen, mission, events[1..]);
      }
    }
  }

  /** The example of the third mission: an extra space between the
      arguments is refused. */
  lemma ThirdMissionAnswer()
    ensures !Accepts("function soma(a, b){return a+b}", Catalog.M003.answerHash)
  {
    PresenceOfSpaceMatters();
  }

  /** Letter case does not matter: "HTTP" answers the second mission. */
  lemma SecondMissionAnswerInCapitals()
    ensures Accepts("HTTP", Catalog.M002.answerHash)
  {
    assert Lower("HTTP") == "http";
    AcceptsUpToNormalForm("HTTP", Catalog.M002.answerHash);
  }

  // ---------------------------------------------------------------------
  // The component
  // ---------------------------------------------------------------------

  class TerminalView {
    var mission: Mission
    var input: string
    var logs: seq<LogEntry>
    var status: Status
    var isGettingHint: bool

    function View(): Screen
      reads this
    {
      Screen(input, logs, status, isGettingHint)
    }

    /** Opening the terminal: empty input, idle, and the first boot line
        (the lines scheduled later by timers are not modelled). */
    constructor (mission: Mission)
      ensures this.mission == mission && View() == Opened
    {
      this.mission := mission;
      input := "";
      logs := [BootEntry];
      status := Idle;
      isGettingHint := false;
    }

    method AddLog(entry: LogEntry)
      modifies this
      ensures logs == old(logs) + [entry]
      ensures mission == old(mission) && input == old(input) && status == old(status) && isGettingHint == old(isGettingHint)
    {
      logs := logs + [entry];
    }

    /** The input's change handler; a disabled field fires none. */
    method ChangeInput(text: string)
      modifies this
      ensures mission == old(mission) && View() == Typed(old(View()), text)
    {
      if status != Success {
        input := text;
      }
    }

    /** The submit handler. */
    method HandleSubmit() returns (completed: Option<string>)
      modifies this
      ensures mission == old(mission)
      ensures View() == Submitted(old(View()), mission).screen
      ensures completed == Submitted(old(View()), mission).completed
    {
      if Trim(input) == [] {
        return None;
      }
      AddLog(EchoEntry(input));
      completed := CheckAnswer();
    }

    /** The rest of the submit handler, once the input has been echoed:
        the verdict and its log lines. */
    method CheckAnswer() returns (completed: Option<string>)
      modifies this
      ensures mission == old(mission) && isGettingHint == old(isGettingHint)
      ensures Accepts(old(input), old(mission).answerHash) ==>
        status == Success && input == old(input) && logs == old(logs) + [GrantedEntry, RewardEntry]
        && completed == Some(old(mission).id)
      ensures !Accepts(old(input), old(mission).answerHash) ==>
        status == Error && input == "" && logs == old(logs) + [DeniedEntry] && completed == None
    {
      var normalizedInput := Normalize(input);
      var normalizedHash := Normalize(mission.answerHash);
      if normalizedInput == normalizedHash {
        status := Success;
        AddLog(GrantedEntry);
        AddLog(RewardEntry);
        completed := Some(mission.id);
      } else {
        status := Error;
        AddLog(DeniedEntry);
        input := "";
        completed := None;
      }
    }

    /** Submitting the form, which the disabled controls may prevent. */
    method Submit() returns (completed: Option<string>)
      modifies this
      ensures mission == old(mission)
      ensures View() == Pressed(old(View()), mission).screen
      ensures completed == Pressed(old(View()), mission).completed
    {
      if status != Success && input != "" {
        completed := HandleSubmit();
      } else {
        completed := None;
      }
    }

    /** The hint button's handler up to the service call. */
    method RequestHint()
      modifies this
      ensures mission == old(mission) && View() == HintRequested(old(View()))
    {
      if !isGettingHint && status != Success {
        isGettingHint := true;
        AddLog(HintRequestEntry);
      }
    }

    /** The rest of the hint handler, once the service has answered with `hint`. */
    method ReceiveHint(hint: string)
      modifies this
      ensures mission == old(mission) && View() == HintReceived(old(View()), hint)
    {
      AddLog(HintReplyEntry(hint));
      isGettingHint := false;
    }

    /** A new mission while mounted: the log restarts with the boot line;
        input, status and the hint flag are kept. */
    method ChangeMission(next: Mission)
      modifies this
      ensures mission == next
      ensures View() == old(View()).(logs := [BootEntry])
    {
      mission := next;
      logs := [BootEntry];
    }
  }
}
