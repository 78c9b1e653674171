/**
 * The bot's operations: the configuration check, the classification of the
 * endpoint's reply, the response validator (which pops the newest homework out
 * of the decoded response in place) and the status translator.
 */
module Homework {
  import opened Wrappers
  import opened PyValues
  import opened Exceptions
  import opened ApiKeys

  const Endpoint := "https://practicum.yandex.ru/api/user_api/homework_statuses/"
  const HttpOk := 200

  /** The fixed verdict table, keyed by the status code the API reports. */
  const Verdicts: map<string, string> := map[
    "approved" := "Работа проверена: ревьюеру всё понравилось. Ура!",
    "reviewing" := "Работа взята на проверку ревьюером.",
    "rejected" := "Работа проверена: у ревьюера есть замечания."
  ]

  // ---------------------------------------------------------------------------
  // check_tokens
  // ---------------------------------------------------------------------------

  /** The three secrets with their names, in the order they are checked; None is an unset variable. */
  function Tokens(practicum: Option<string>, telegram: Option<string>, chatId: Option<string>): seq<(string, Option<string>)>
  {
    [("PRACTICUM_TOKEN", practicum), ("TELEGRAM_TOKEN", telegram), ("TELEGRAM_CHAT_ID", chatId)]
  }

  /** The names of the unset entries, in order. */
  function Missing(values: seq<(string, Option<string>)>): seq<string>
  {
    if values == [] then []
    else (if values[0].1.None? then [values[0].0] else []) + Missing(values[1..])
  }

  lemma {:induction false} MissingAppend(values: seq<(string, Option<string>)>, value: (string, Option<string>))
    ensures Missing(values + [value]) == Missing(values) + (if value.1.None? then [value.0] else [])
  {
    if values == [] {
      assert [value][1..] == [];
    } else {
      assert (values + [value])[1..] == values[1..] + [value];
      MissingAppend(values[1..], value);
    }
  }

  /** The reference: each unset secret's name, always in the order PRACTICUM_TOKEN, TELEGRAM_TOKEN, TELEGRAM_CHAT_ID. */
  function MissingTokens(practicum: Option<string>, telegram: Option<string>, chatId: Option<string>): seq<string>
  {
    (if practicum.None? then ["PRACTICUM_TOKEN"] else [])
    + (if telegram.None? then ["TELEGRAM_TOKEN"] else [])
    + (if chatId.None? then ["TELEGRAM_CHAT_ID"] else [])
  }

  /** Running the check over the three entries gives the reference list. */
  lemma MissingOfTokens(practicum: Option<string>, telegram: Option<string>, chatId: Option<string>)
    ensures Missing(Tokens(practicum, telegram, chatId)) == MissingTokens(practicum, telegram, chatId)
  {
    var values := Tokens(practicum, telegram, chatId);
    assert values[1..][1..][1..] == [];
    assert Missing(values[1..][1..]) == if chatId.None? then ["TELEGRAM_CHAT_ID"] else [];
  }

  /** A name is reported exactly when its secret is unset; an empty string counts as set. */
  lemma MissingTokensExactly(practicum: Option<string>, telegram: Option<string>, chatId: Option<string>)
    ensures "PRACTICUM_TOKEN" in MissingTokens(practicum, telegram, chatId) <==> practicum.None?
    ensures "TELEGRAM_TOKEN" in MissingTokens(practicum, telegram, chatId) <==> telegram.None?
    ensures "TELEGRAM_CHAT_ID" in MissingTokens(practicum, telegram, chatId) <==> chatId.None?
    ensures MissingTokens(practicum, telegram, chatId) == [] <==> practicum.Some? && telegram.Some? && chatId.Some?
  {
  }

  /**
   * check_tokens: returns normally (None) when all three secrets are set;
   * otherwise raises EmptyValueException holding the list of missing names.
   */
  method CheckTokens(practicum: Option<string>, telegram: Option<string>, chatId: Option<string>)
    returns (failure: Option<EmptyValueException>)
    ensures failure.None? <==> practicum.Some? && telegram.Some? && chatId.Some?
    ensures failure.Some? ==> failure.value == EmptyValueException(List(StrList(MissingTokens(practicum, telegram, chatId))))
  {
    var values := Tokens(practicum, telegram, chatId);
    var emptyValue: seq<string> := [];
    for i := 0 to |values|
      invariant emptyValue == Missing(values[..i])
    {
      MissingAppend(values[..i], values[i]);
      assert values[..i + 1] == values[..i] + [values[i]];
      if values[i].1.None? {
        emptyValue := emptyValue + [values[i].0];
      }
    }
    assert values[..|values|] == values;
    MissingOfTokens(practicum, telegram, chatId);
    assert emptyValue == MissingTokens(practicum, telegram, chatId);
    if |emptyValue| > 0 {
      return Some(EmptyValueException(List(StrList(emptyValue))));
    }
    return None;
  }

  /** The text check_tokens' exception shows: the missing names as a Python list literal. */
  lemma CheckTokensMessage(practicum: Option<string>, telegram: Option<string>, chatId: Option<string>)
    ensures EmptyValueException(List(StrList(MissingTokens(practicum, telegram, chatId)))).Str()
         == EmptyValuePrefix + "[" + QuotedNames(MissingTokens(practicum, telegram, chatId)) + "]"
  {
    var names := MissingTokens(practicum, telegram, chatId);
    forall i | 0 <= i < |names|
      ensures PlainName(names[i])
    {
      assert names[i] in {"PRACTICUM_TOKEN", "TELEGRAM_TOKEN", "TELEGRAM_CHAT_ID"};
    }
    EmptyValueStrOfNames(names);
  }

  // ---------------------------------------------------------------------------
  // get_api_answer
  // ---------------------------------------------------------------------------

  /** The decoded body of a reply, or the decoder's message when the body is not JSON. */
  datatype Body = Json(value: Value) | NotJson(decodeError: string)

  /** What the HTTP GET to the endpoint came back with. */
  datatype HttpOutcome = TransportFailure | Reply(statusCode: int, body: Body)

  /**
   * get_api_answer: a transport failure and a status other than 200 both become
   * EndpointException (only the second carries the code); a 200 reply yields
   * its decoded body, and decoding is outside the exception handler.
   */
  function GetApiAnswer(answer: HttpOutcome): (r: Result<Value>)
    ensures r.Ok? <==> answer.Reply? && answer.statusCode == HttpOk && answer.body.Json?
    ensures r.Ok? ==> r.value == answer.body.value
    ensures answer.TransportFailure? ==>
      r.Err? && r.error.Endpoint? && r.error.exception == EndpointException(endpoint := Some(Endpoint))
    ensures answer.Reply? && answer.statusCode != HttpOk ==>
      r.Err? && r.error.Endpoint? && r.error.exception == EndpointException(Some(Endpoint), Some(answer.statusCode))
    ensures answer.Reply? && answer.statusCode == HttpOk && answer.body.NotJson? ==>
      r == Err(DecodeError(answer.body.decodeError))
  {
    match answer
    case TransportFailure => Err(Error.Endpoint(EndpointException(endpoint := Some(Endpoint))))
    case Reply(code, body) =>
      if code != HttpOk then Err(Error.Endpoint(EndpointException(endpoint := Some(Endpoint), code := Some(code))))
      else if body.Json? then Ok(body.value)
      else Err(DecodeError(body.decodeError))
  }

  /** The texts of the endpoint errors: generic without a code (or with code 0), and one per status code otherwise. */
  lemma GetApiAnswerTexts(answer: HttpOutcome, other: HttpOutcome)
    ensures answer.TransportFailure? ==>
      ErrorStr(GetApiAnswer(answer).error) == "Ошибка при обращении к эндпоинту " + Endpoint + "."
    ensures answer.Reply? && answer.statusCode == 0 ==>
      ErrorStr(GetApiAnswer(answer).error) == "Ошибка при обращении к эндпоинту " + Endpoint + "."
    ensures answer.Reply? && other.Reply? && answer.statusCode !in {0, HttpOk} && other.statusCode !in {0, HttpOk} ==>
      (ErrorStr(GetApiAnswer(answer).error) == ErrorStr(GetApiAnswer(other).error) <==> answer.statusCode == other.statusCode)
    ensures answer.TransportFailure? && other.Reply? && other.statusCode !in {0, HttpOk} ==>
      ErrorStr(GetApiAnswer(answer).error) != ErrorStr(GetApiAnswer(other).error)
  {
    if answer.Reply? && other.Reply? && answer.statusCode !in {0, HttpOk} && other.statusCode !in {0, HttpOk} {
      EndpointStrDistinguishesCodes(GetApiAnswer(answer).error.exception, GetApiAnswer(other).error.exception);
    }
    if answer.TransportFailure? && other.Reply? && other.statusCode !in {0, HttpOk} {
      EndpointStrKindsDiffer(GetApiAnswer(other).error.exception, GetApiAnswer(answer).error.exception);
    }
  }

  // ---------------------------------------------------------------------------
  // Python's value[key] for a string key
  // ---------------------------------------------------------------------------

  /** `v[key]`: a dictionary yields the bound value or raises KeyError(key); other values raise TypeError. */
  function Subscript(v: Value, key: string): (r: Result<Value>)
    ensures r.Ok? <==> v.Dict? && Lookup(v.members, key).Some?
    ensures r.Ok? ==> Some(r.value) == Lookup(v.members, key)
    ensures r.Err? && v.Dict? ==> r.error == KeyError(Str(key))
    ensures r.Err? && !v.Dict? ==> r.error.TypeError?
  {
    match v
    case Dict(members) =>
      if Lookup(members, key).Some? then Ok(Lookup(members, key).value) else Err(KeyError(Str(key)))
    case Str(_) => Err(TypeError("string indices must be integers, not 'str'"))
    case List(_) => Err(TypeError("list indices must be integers or slices, not str"))
    case _ => Err(TypeError("'" + TypeName(v) + "' object is not subscriptable"))
  }

  // ---------------------------------------------------------------------------
  // check_response
  // ---------------------------------------------------------------------------

  const MissingKeyPrefix := "В ответе API отсутствует ключ "
  const NotAListText := "Ответ с \"homeworks\" вернулся не в списке"

  /** What check_response returns (None is Null) and the response as it leaves it. */
  datatype Inspection = Inspection(result: Result<Value>, after: Value)

  /** The list under "homeworks", when the response is a dictionary holding one. */
  function HomeworkList(response: Value): Option<seq<Value>>
  {
    if response.Dict? && Lookup(response.members, HomeworksKey).Some? && Lookup(response.members, HomeworksKey).value.List?
    then Some(Lookup(response.members, HomeworksKey).value.items)
    else None
  }

  /** check_response on a value, with the effect of its pop on the response. */
  function Inspect(response: Value): (r: Inspection)
    ensures r.result.Ok? <==> HomeworkList(response).Some?
    ensures r.result.Err? ==> r.after == response
    ensures HomeworkList(response) == Some([]) ==> r == Inspection(Ok(Null), response)
    ensures !response.Dict? ==> r.result.Err? && r.result.error.TypeError?
    ensures response.Dict? && Lookup(response.members, HomeworksKey).Some? && HomeworkList(response).None? ==>
      r.result == Err(TypeError(NotAListText))
  {
    match Subscript(response, HomeworksKey)
    case Err(e) =>
      if e.KeyError? then Inspection(Err(KeyError(Str(MissingKeyPrefix + ErrorStr(e)))), response)
      else Inspection(Err(e), response)
    case Ok(homework) =>
      if !homework.List? then Inspection(Err(TypeError(NotAListText)), response)
      else if homework.items == [] then Inspection(Ok(Null), response)
      else
        var n := |homework.items|;
        Inspection(Ok(homework.items[n - 1]),
                   Dict(Update(response.members, HomeworksKey, List(homework.items[..n - 1]))))
  }

  /** A missing "homeworks" key raises KeyError with the key's repr in the message. */
  lemma InspectMissingKey(response: Value)
    requires response.Dict? && Lookup(response.members, HomeworksKey).None?
    ensures Inspect(response) == Inspection(Err(KeyError(Str(MissingKeyPrefix + "'homeworks'"))), response)
  {
    var e := KeyError(Str(HomeworksKey));
    assert Subscript(response, HomeworksKey) == Err(e);
    HomeworksKeyRepr();
  }

  /**
   * On a non-empty list the newest (last) entry is returned, and the list left
   * in the response is the rest, in order; every other key is untouched.
   */
  lemma InspectPops(response: Value)
    requires HomeworkList(response).Some? && HomeworkList(response).value != []
    ensures var items := HomeworkList(response).value;
      var r := Inspect(response);
      && r.result == Ok(items[|items| - 1])
      && HomeworkList(r.after).Some?
      && HomeworkList(r.after).value + [items[|items| - 1]] == items
      && forall key :: key != HomeworksKey ==> Lookup(r.after.members, key) == Lookup(response.members, key)
  {
    var items := HomeworkList(response).value;
    var rest := List(items[..|items| - 1]);
    LookupUpdateSame(response.members, HomeworksKey, rest);
    forall key | key != HomeworksKey
      ensures Lookup(Inspect(response).after.members, key) == Lookup(response.members, key)
    {
      LookupUpdateOther(response.members, HomeworksKey, rest, key);
    }
    assert HomeworkList(Inspect(response).after).value == items[..|items| - 1];
  }

  /** The decoded response, as the mutable object check_response receives. */
  class Response {
    var body: Value

    constructor (body: Value)
      ensures this.body == body
    {
      this.body := body;
    }
  }

  /** check_response: validates the response and pops the newest homework off its list in place. */
  method CheckResponse(response: Response) returns (homework: Result<Value>)
    modifies response
    ensures homework == Inspect(old(response.body)).result
    ensures response.body == Inspect(old(response.body)).after
  {
    var found := Subscript(response.body, HomeworksKey);
    if found.Err? {
      if found.error.KeyError? {
        return Err(KeyError(Str(MissingKeyPrefix + ErrorStr(found.error))));
      }
      return Err(found.error);
    }
    var list := found.value;
    if !list.List? {
      return Err(TypeError(NotAListText));
    } else if list.items == [] {
      return Ok(Null);
    }
    var n := |list.items|;
    homework := Ok(list.items[n - 1]);
    response.body := Dict(Update(response.body.members, HomeworksKey, List(list.items[..n - 1])));
  }

  // ---------------------------------------------------------------------------
  // parse_status
  // ---------------------------------------------------------------------------

  const MissingFieldSuffix := " отсутствует в ответе от API"
  const UnexpectedStatusPrefix := "Получен неожиданный статус домашней работы: "

  /** HOMEWORK_VERDICTS[status]: lists and dictionaries are unhashable; any other unknown key raises KeyError(status). */
  function VerdictOf(status: Value): (r: Result<string>)
    ensures r.Ok? <==> status.Str? && status.text in Verdicts
    ensures r.Ok? ==> r.value == Verdicts[status.text]
    ensures r.Err? && !status.List? && !status.Dict? ==> r.error == KeyError(status)
  {
    match status
    case Str(k) => if k in Verdicts then Ok(Verdicts[k]) else Err(KeyError(status))
    case List(_) => Err(TypeError("unhashable type: 'list'"))
    case Dict(_) => Err(TypeError("unhashable type: 'dict'"))
    case _ => Err(KeyError(status))
  }

  /** A missing field's KeyError is re-raised with the key's repr inside a message. */
  function MissingField(e: Error): Result<string>
  {
    if e.KeyError? then Err(KeyError(Str("Ключ " + ErrorStr(e) + MissingFieldSuffix))) else Err(e)
  }

  /** The notification sentence. */
  function Notice(name: string, verdict: string): string
  {
    "Изменился статус проверки работы \"" + name + "\". " + verdict
  }

  /** A homework record parse_status accepts: a dictionary with both keys and a known status string. */
  predicate Recognised(homework: Value)
  {
    && homework.Dict?
    && Lookup(homework.members, StatusKey).Some?
    && Lookup(homework.members, NameKey).Some?
    && Lookup(homework.members, StatusKey).value.Str?
    && Lookup(homework.members, StatusKey).value.text in Verdicts
  }

  /**
   * parse_status: reads "status", then "homework_name", then the verdict; a
   * record it accepts becomes the notice with str(name) and the verdict.
   */
  function ParseStatus(homework: Value): (r: Result<string>)
    ensures r.Ok? <==> Recognised(homework)
    ensures r.Ok? ==> r.value == Notice(PyStr(Lookup(homework.members, NameKey).value),
                                        Verdicts[Lookup(homework.members, StatusKey).value.text])
  {
    match Subscript(homework, StatusKey)
    case Err(e) => MissingField(e)
    case Ok(status) =>
      match Subscript(homework, NameKey)
      case Err(e) => MissingField(e)
      case Ok(name) =>
        match VerdictOf(status)
        case Err(e) =>
          if e.KeyError? then Err(KeyError(Str(UnexpectedStatusPrefix + ErrorStr(e)))) else Err(e)
        case Ok(verdict) => Ok(Notice(PyStr(name), verdict))
  }

  /** A missing key is reported by name; "status" is looked up first, so it is the one named when both are absent. */
  lemma ParseStatusMissingKey(homework: Value)
    requires homework.Dict?
    ensures Lookup(homework.members, StatusKey).None? ==>
      ParseStatus(homework) == Err(KeyError(Str("Ключ " + "'status'" + MissingFieldSuffix)))
    ensures Lookup(homework.members, StatusKey).Some? && Lookup(homework.members, NameKey).None? ==>
      ParseStatus(homework) == Err(KeyError(Str("Ключ " + "'homework_name'" + MissingFieldSuffix)))
  {
    if Lookup(homework.members, StatusKey).None? {
      assert Subscript(homework, StatusKey) == Err(KeyError(Str(StatusKey)));
      StatusKeyRepr();
    } else if Lookup(homework.members, NameKey).None? {
      assert Subscript(homework, NameKey) == Err(KeyError(Str(NameKey)));
      NameKeyRepr();
    }
  }

  /** An unknown status string is reported with its repr. */
  lemma ParseStatusUnknown(homework: Value)
    requires homework.Dict? && Lookup(homework.members, NameKey).Some?
    requires Lookup(homework.members, StatusKey).Some? && Lookup(homework.members, StatusKey).value.Str?
    requires Lookup(homework.members, StatusKey).value.text !in Verdicts
    ensures ParseStatus(homework) ==
      Err(KeyError(Str(UnexpectedStatusPrefix + StrRepr(Lookup(homework.members, StatusKey).value.text))))
  {
  }

  /** A name that is an object repeating a key shows in the notice as Python's dictionary does: once, with the last value. */
  lemma NoticeShowsDecodedName(status: string, k: string, v1: Value, v2: Value)
    requires status in Verdicts
    ensures ParseStatus(Dict([(StatusKey, Str(status)), (NameKey, Dict([(k, v1), (k, v2)]))]))
         == Ok(Notice("{" + StrRepr(k) + ": " + Repr(v2) + "}", Verdicts[status]))
  {
    var homework := Dict([(StatusKey, Str(status)), (NameKey, Dict([(k, v1), (k, v2)]))]);
    assert Lookup(homework.members, NameKey) == Some(Dict([(k, v1), (k, v2)]));
    assert Lookup(homework.members, StatusKey) == Some(Str(status));
    ReprRepeatedKey(k, v1, v2);
  }

  /**
   * The notice names the homework in quotes and ends with the verdict; for one
   * homework, two statuses give the same notice only when they are the same status.
   */
  lemma NoticeDeterminesStatus(name: string, s1: string, s2: string)
    requires s1 in Verdicts && s2 in Verdicts
    ensures OccursAt(name, Notice(name, Verdicts[s1]), 34)
    ensures Notice(name, Verdicts[s1]) == Notice(name, Verdicts[s2]) <==> s1 == s2
  {
    var p := "Изменился статус проверки работы \"";
    assert |p| == 34;
    assert Notice(name, Verdicts[s1])[34..34 + |name|] == name;
    if Notice(name, Verdicts[s1]) == Notice(name, Verdicts[s2]) {
      var head := p + name + "\". ";
      assert Notice(name, Verdicts[s1])[|head|..] == Verdicts[s1];
      assert Notice(name, Verdicts[s2])[|head|..] == Verdicts[s2];
    }
  }
}
