/**
 * The body of `main`: the configuration check, then cycles of the polling loop.
 * One cycle queries the endpoint with the current cursor, moves the cursor to
 * the reply's "current_date", validates the reply, sends a notice for the
 * newest homework, and on any exception sends a failure report unless it is
 * the same text as the last failure report sent.
 *
 * The endpoint's replies are inputs (one per cycle); the messages handed to the
 * messaging client and the cursors sent to the endpoint are kept as logs.
 */
module PollLoop {
  import opened Wrappers
  import opened PyValues
  import opened Exceptions
  import opened ApiKeys
  import opened Homework

  const FailurePrefix := "Сбой в работе программы: "
  const MissingDateText := "В ответе API отсутствует временная метка"

  /** How the try block of a cycle ends. */
  datatype Attempt = Quiet | Notify(message: string) | Failed(error: Error)

  /** The try block's effect: the cursor it assigned (when it got that far) and how it ended. */
  datatype CycleOutcome = CycleOutcome(cursor: Option<Value>, attempt: Attempt)

  /** The try block of one cycle, given the endpoint's reply. */
  function TryCycle(answer: HttpOutcome): CycleOutcome
  {
    match GetApiAnswer(answer)
    case Err(e) => CycleOutcome(None, Failed(e))
    case Ok(response) =>
      match Subscript(response, CurrentDateKey)
      case Err(e) => CycleOutcome(None, Failed(if e.KeyError? then KeyError(Str(MissingDateText)) else e))
      case Ok(date) =>
        CycleOutcome(Some(date),
          match Inspect(response).result
          case Err(e) => Failed(e)
          case Ok(homework) =>
            if homework == Null then Quiet
            else match ParseStatus(homework)
              case Err(e) => Failed(e)
              case Ok(message) => Notify(message))
  }

  /** The text of the failure report for an exception. */
  function Report(e: Error): string
  {
    FailurePrefix + ErrorStr(e)
  }

  /**
   * The loop's variables (the cursor and the last failure report sent) and
   * the two logs: cursors sent to the endpoint, messages given to the messenger.
   */
  datatype LoopState = LoopState(timestamp: Value, lastMessage: Option<string>, sent: seq<string>, queried: seq<Value>)

  /** The state before the first cycle: the cursor is the start time, nothing sent yet. */
  function Initial(now: int): LoopState
  {
    LoopState(Int(now), None, [], [])
  }

  /** One cycle of the loop. */
  function Step(s: LoopState, answer: HttpOutcome): LoopState
  {
    Advance(s, TryCycle(answer))
  }

  /** The state after a cycle whose try block had the given outcome: the query, the cursor, the sends. */
  function Advance(s: LoopState, outcome: CycleOutcome): LoopState
  {
    var timestamp := if outcome.cursor.Some? then outcome.cursor.value else s.timestamp;
    var queried := s.queried + [s.timestamp];
    match outcome.attempt
    case Quiet => LoopState(timestamp, s.lastMessage, s.sent, queried)
    case Notify(m) => LoopState(timestamp, s.lastMessage, s.sent + [m], queried)
    case Failed(e) =>
      if s.lastMessage != Some(Report(e)) then LoopState(timestamp, Some(Report(e)), s.sent + [Report(e)], queried)
      else LoopState(timestamp, s.lastMessage, s.sent, queried)
  }

  /** The cycles for a sequence of replies, in order. */
  function Steps(s: LoopState, answers: seq<HttpOutcome>): LoopState
  {
    if answers == [] then s else Step(Steps(s, answers[..|answers| - 1]), answers[|answers| - 1])
  }

  /** The loop's variables and logs, updated in place by each cycle. */
  class Poller {
    var timestamp: Value
    var lastMessage: Option<string>
    var sent: seq<string>
    var queried: seq<Value>

    function State(): LoopState
      reads this
    {
      LoopState(timestamp, lastMessage, sent, queried)
    }

    constructor (now: int)
      ensures State() == Initial(now)
    {
      timestamp := Int(now);
      lastMessage := None;
      sent := [];
      queried := [];
    }

    /** send_message: hands the text to the messenger; a delivery failure is only logged, never raised. */
    method SendMessage(message: string)
      modifies this
      ensures sent == old(sent) + [message]
      ensures timestamp == old(timestamp) && lastMessage == old(lastMessage) && queried == old(queried)
    {
      sent := sent + [message];
    }

    /**
     * The try block of a cycle: moves the cursor, sends the notice, and
     * returns the exception it raised, if any.
     */
    method TryBlock(answer: HttpOutcome) returns (failure: Option<Error>)
      modifies this
      ensures var outcome := TryCycle(answer);
        && failure == (if outcome.attempt.Failed? then Some(outcome.attempt.error) else None)
        && timestamp == (if outcome.cursor.Some? then outcome.cursor.value else old(timestamp))
        && sent == old(sent) + (if outcome.attempt.Notify? then [outcome.attempt.message] else [])
        && lastMessage == old(lastMessage) && queried == old(queried)
    {
      failure := None;
      var reply := GetApiAnswer(answer);
      if reply.Err? {
        failure := Some(reply.error);
      } else {
        var date := Subscript(reply.value, CurrentDateKey);
        if date.Err? {
          failure := Some(if date.error.KeyError? then KeyError(Str(MissingDateText)) else date.error);
        } else {
          timestamp := date.value;
          var response := new Response(reply.value);
          var homework := CheckResponse(response);
          if homework.Err? {
            failure := Some(homework.error);
          } else if homework.value != Null {
            var message := ParseStatus(homework.value);
            if message.Err? {
              failure := Some(message.error);
            } else {
              SendMessage(message.value);
            }
          }
        }
      }
    }

    /** One pass of the `while True` body (the sleep is not modelled). */
    method Cycle(answer: HttpOutcome)
      modifies this
      ensures State() == Step(old(State()), answer)
    {
      queried := queried + [timestamp];
      var failure := TryBlock(answer);
      if failure.Some? {
        var message := Report(failure.value);
        if lastMessage != Some(message) {
          SendMessage(message);
          lastMessage := Some(message);
        }
      }
    }

    /** Cycles of the loop, one per reply. */
    method Run(answers: seq<HttpOutcome>)
      modifies this
      ensures State() == Steps(old(State()), answers)
    {
      for i := 0 to |answers|
        invariant State() == Steps(old(State()), answers[..i])
      {
        assert answers[..i + 1][..i] == answers[..i];
        Cycle(answers[i]);
      }
      assert answers[..|answers|] == answers;
    }
  }

  /**
   * main: check_tokens first (its exception is not caught, so the process stops
   * before any cycle); otherwise a loop starting from the current time runs one
   * cycle per reply.
   */
  method Launch(practicum: Option<string>, telegram: Option<string>, chatId: Option<string>,
                now: int, answers: seq<HttpOutcome>)
    returns (failure: Option<EmptyValueException>, poller: Poller?)
    ensures failure.None? <==> practicum.Some? && telegram.Some? && chatId.Some?
    ensures failure.Some? ==> poller == null
    ensures failure.None? ==> poller != null && fresh(poller) && poller.State() == Steps(Initial(now), answers)
  {
    failure := CheckTokens(practicum, telegram, chatId);
    if failure.Some? {
      return failure, null;
    }
    poller := new Poller(now);
    poller.Run(answers);
  }

  // ---------------------------------------------------------------------------
  // Properties of a cycle
  // ---------------------------------------------------------------------------

  /** Every cycle queries the endpoint with the cursor it starts with. */
  lemma StepQueriesCursor(s: LoopState, answer: HttpOutcome)
    ensures Step(s, answer).queried == s.queried + [s.timestamp]
  {
  }

  /**
   * The cursor takes the reply's "current_date" before validation runs, so it
   * moves even when the rest of the cycle fails; with no reply, or no
   * "current_date" in it, the cursor stays and the cycle fails.
   */
  lemma CursorFollowsCurrentDate(s: LoopState, answer: HttpOutcome)
    ensures GetApiAnswer(answer).Ok? && Subscript(GetApiAnswer(answer).value, CurrentDateKey).Ok? ==>
      Step(s, answer).timestamp == Subscript(GetApiAnswer(answer).value, CurrentDateKey).value
    ensures GetApiAnswer(answer).Err? ==> Step(s, answer).timestamp == s.timestamp && TryCycle(answer).attempt.Failed?
    ensures GetApiAnswer(answer).Ok? && GetApiAnswer(answer).value.Dict? &&
            Lookup(GetApiAnswer(answer).value.members, CurrentDateKey).None? ==>
      Step(s, answer).timestamp == s.timestamp && TryCycle(answer).attempt == Failed(KeyError(Str(MissingDateText)))
  {
  }

  /**
   * A notice is sent exactly when the reply carries a recognised newest
   * homework; a newest record that is neither null nor recognised fails the
   * cycle with parse_status's error.
   */
  lemma NoticeSent(s: LoopState, answer: HttpOutcome)
    requires GetApiAnswer(answer).Ok?
    requires Subscript(GetApiAnswer(answer).value, CurrentDateKey).Ok?
    requires HomeworkList(GetApiAnswer(answer).value).Some?
    ensures var items := HomeworkList(GetApiAnswer(answer).value).value;
      items != [] && Recognised(items[|items| - 1]) ==>
        Step(s, answer).sent == s.sent + [ParseStatus(items[|items| - 1]).value]
        && Step(s, answer).lastMessage == s.lastMessage
    ensures var items := HomeworkList(GetApiAnswer(answer).value).value;
      (items == [] || items[|items| - 1] == Null) ==> Step(s, answer).sent == s.sent && Step(s, answer).lastMessage == s.lastMessage
    ensures var items := HomeworkList(GetApiAnswer(answer).value).value;
      items != [] && items[|items| - 1] != Null && !Recognised(items[|items| - 1]) ==>
        TryCycle(answer).attempt == Failed(ParseStatus(items[|items| - 1]).error)
  {
    var items := HomeworkList(GetApiAnswer(answer).value).value;
    if items != [] {
      InspectPops(GetApiAnswer(answer).value);
    }
  }

  /**
   * A failed cycle sends its report, and records it as the last report, only
   * when the text differs from the last report sent.
   */
  lemma FailureDeduplicated(s: LoopState, answer: HttpOutcome)
    requires TryCycle(answer).attempt.Failed?
    ensures var m := Report(TryCycle(answer).attempt.error);
      && (s.lastMessage != Some(m) ==> Step(s, answer).sent == s.sent + [m] && Step(s, answer).lastMessage == Some(m))
      && (s.lastMessage == Some(m) ==> Step(s, answer).sent == s.sent && Step(s, answer).lastMessage == s.lastMessage)
  {
  }

  /** A cycle that does not fail leaves the last report as it was (a success does not reset it). */
  lemma SuccessKeepsLastReport(s: LoopState, answer: HttpOutcome)
    requires !TryCycle(answer).attempt.Failed?
    ensures Step(s, answer).lastMessage == s.lastMessage
  {
  }

  /** The same failing reply twice in a row gives one send. */
  lemma {:induction false} RepeatedFailureSentOnce(s: LoopState, answer: HttpOutcome)
    requires TryCycle(answer).attempt.Failed?
    ensures Step(Step(s, answer), answer).sent == Step(s, answer).sent
    ensures |Step(s, answer).sent| <= |s.sent| + 1
  {
    var m := Report(TryCycle(answer).attempt.error);
    assert Step(s, answer).lastMessage == Some(m);
  }

  /** One reply repeated `n` times. */
  function Repeat(answer: HttpOutcome, n: nat): seq<HttpOutcome>
  {
    seq(n, _ => answer)
  }

  /** The last of `n` repeated replies is the last cycle of the run. */
  lemma StepsRepeat(s: LoopState, answer: HttpOutcome, n: nat)
    ensures n == 0 ==> Steps(s, Repeat(answer, n)) == s
    ensures n >= 1 ==> Steps(s, Repeat(answer, n)) == Step(Steps(s, Repeat(answer, n - 1)), answer)
  {
    if n >= 1 {
      assert Repeat(answer, n)[..n - 1] == Repeat(answer, n - 1);
    } else {
      assert Repeat(answer, n) == [];
    }
  }

  /** However often the same failure repeats, it is reported at most once, and after the first cycle never again. */
  lemma {:induction false} RepeatedFailureReportedOnce(s: LoopState, answer: HttpOutcome, n: nat)
    requires TryCycle(answer).attempt.Failed?
    ensures n >= 1 ==> Steps(s, Repeat(answer, n)).sent == Step(s, answer).sent
    ensures n >= 1 ==> Steps(s, Repeat(answer, n)).lastMessage == Some(Report(TryCycle(answer).attempt.error))
    ensures |Steps(s, Repeat(answer, n)).sent| <= |s.sent| + 1
  {
    FailureDeduplicated(s, answer);
    StepsRepeat(s, answer, n);
    if n >= 1 {
      StepsRepeat(s, answer, n - 1);
      if n > 1 {
        RepeatedFailureReportedOnce(s, answer, n - 1);
        FailureDeduplicated(Steps(s, Repeat(answer, n - 1)), answer);
      }
    }
  }

  /**
   * Of two different failures in a row the second is always reported, and both
   * are when the first differs from the last report sent.
   */
  lemma DistinctFailuresBothSent(s: LoopState, first: HttpOutcome, second: HttpOutcome)
    requires TryCycle(first).attempt.Failed? && TryCycle(second).attempt.Failed?
    requires Report(TryCycle(first).attempt.error) != Report(TryCycle(second).attempt.error)
    ensures Step(Step(s, first), second).sent == Step(s, first).sent + [Report(TryCycle(second).attempt.error)]
    ensures s.lastMessage != Some(Report(TryCycle(first).attempt.error)) ==>
      Step(Step(s, first), second).sent
        == s.sent + [Report(TryCycle(first).attempt.error), Report(TryCycle(second).attempt.error)]
  {
    FailureDeduplicated(s, first);
    FailureDeduplicated(Step(s, first), second);
  }

  /** What the loop knows of its last report: if there is one, it was sent. */
  predicate LastReportSent(s: LoopState)
  {
    s.lastMessage.Some? ==> s.lastMessage.value in s.sent
  }

  lemma {:induction false} StepsKeepLastReportSent(s: LoopState, answers: seq<HttpOutcome>)
    requires LastReportSent(s)
    ensures LastReportSent(Steps(s, answers))
    ensures |Steps(s, answers).sent| >= |s.sent| && Steps(s, answers).sent[..|s.sent|] == s.sent
    ensures |Steps(s, answers).queried| == |s.queried| + |answers|
  {
    if answers != [] {
      StepsKeepLastReportSent(s, answers[..|answers| - 1]);
    }
  }

  /** A reply from the endpoint with the given homework list and cursor. */
  function ReplyWith(homeworks: seq<Value>, date: Value): HttpOutcome
  {
    Reply(HttpOk, Json(Dict([(HomeworksKey, List(homeworks)), (CurrentDateKey, date)])))
  }

  /** A homework record with a status and a name. */
  function Record(status: string, name: string): Value
  {
    Dict([(StatusKey, Str(status)), (NameKey, Str(name))])
  }

  /**
   * A reply whose newest record has a known status produces exactly one
   * message, the verdict sentence for that homework, and the next cycle
   * queries with the reply's "current_date".
   */
  lemma NewestRecordNotified(s: LoopState, older: seq<Value>, status: string, name: string, date: Value, next: HttpOutcome)
    requires status in Verdicts
    ensures var reply := ReplyWith(older + [Record(status, name)], date);
      && Step(s, reply).sent == s.sent + [Notice(name, Verdicts[status])]
      && Step(s, reply).timestamp == date
      && Step(Step(s, reply), next).queried == s.queried + [s.timestamp, date]
  {
    var record := Record(status, name);
    var reply := ReplyWith(older + [record], date);
    ReplyWithReads(older + [record], date);
    RecordParses(status, name);
    NoticeSent(s, reply);
    assert TryCycle(reply) == CycleOutcome(Some(date), Notify(Notice(name, Verdicts[status])));
  }

  /** The reply built by ReplyWith passes get_api_answer and carries both keys. */
  lemma ReplyWithReads(homeworks: seq<Value>, date: Value)
    ensures GetApiAnswer(ReplyWith(homeworks, date)).Ok?
    ensures Subscript(GetApiAnswer(ReplyWith(homeworks, date)).value, CurrentDateKey) == Ok(date)
    ensures HomeworkList(GetApiAnswer(ReplyWith(homeworks, date)).value) == Some(homeworks)
  {
    var response := GetApiAnswer(ReplyWith(homeworks, date)).value;
    assert Lookup(response.members, CurrentDateKey) == Some(date);
    assert Lookup(response.members, HomeworksKey) == Some(List(homeworks));
  }

  /** A record with a known status parses into its verdict sentence. */
  lemma RecordParses(status: string, name: string)
    requires status in Verdicts
    ensures Recognised(Record(status, name))
    ensures ParseStatus(Record(status, name)) == Ok(Notice(name, Verdicts[status]))
  {
    var record := Record(status, name);
    assert Lookup(record.members, StatusKey) == Some(Str(status));
    assert Lookup(record.members, NameKey) == Some(Str(name));
  }

  /**
   * How a KeyError raised with a message shows in a failure report: the message
   * in single quotes, or in double quotes when it holds a single quote.
   */
  lemma KeyErrorReport(e: Error, message: string)
    requires e == KeyError(Str(message))
    requires forall i :: 0 <= i < |message| ==> message[i] != '\\' && message[i] != '"' && !NonPrintable(message[i])
    ensures '\'' !in message ==> Report(e) == FailurePrefix + "'" + message + "'"
    ensures '\'' in message ==> Report(e) == FailurePrefix + "\"" + message + "\""
  {
    var q := QuoteFor(message);
    if '\'' !in message {
      EscapedVerbatim(message, '\'');
    } else {
      assert q == '"';
      EscapedVerbatim(message, '"');
    }
  }
}
