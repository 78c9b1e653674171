/**
 * The bot's two exception classes, with their constructors (stored fields) and
 * their `__str__`, and the sum of every exception a poll cycle can raise: the
 * bot's EndpointException and the built-in KeyError and TypeError, plus the
 * decoding error of `response.json()`.
 */
module Exceptions {
  import opened Wrappers
  import opened PyValues

  const EmptyValuePrefix := "Отсутствует обязательная переменная: "

  /** Raised for missing configuration; `token` is stored as the caller passed it. */
  datatype EmptyValueException = EmptyValueException(token: Value)
  {
    /** The fixed prefix followed by str(token). */
    function Str(): string
    {
      EmptyValuePrefix + PyStr(token)
    }
  }

  /** Raised for an unreachable endpoint; both fields default to None, as in the Python constructor. */
  datatype EndpointException = EndpointException(endpoint: Option<string> := None, code: Option<int> := None)
  {
    /** Python truthiness of `self.code`: present and not zero. */
    predicate HasCode()
    {
      code.Some? && code.value != 0
    }

    /** str(self.endpoint). */
    function EndpointText(): string
    {
      if endpoint.Some? then endpoint.value else "None"
    }

    function Str(): string
    {
      if HasCode() then
        "Эндпоинт " + EndpointText() + " недоступен. " + "Код ответа API: " + IntToString(code.value)
      else
        "Ошибка при обращении к эндпоинту " + EndpointText() + "."
    }
  }

  /** The constructors keep what they are given; EndpointException without arguments has neither field. */
  lemma ExceptionConstructors(token: Value, endpoint: Option<string>, code: Option<int>)
    ensures EmptyValueException(token).token == token
    ensures EndpointException(endpoint, code).endpoint == endpoint && EndpointException(endpoint, code).code == code
    ensures EndpointException() == EndpointException(None, None)
    ensures EndpointException(endpoint := endpoint) == EndpointException(endpoint, None)
  {
  }

  /** `sub` occurs in `s` at offset `at`. */
  predicate OccursAt(sub: string, s: string, at: nat)
  {
    at + |sub| <= |s| && s[at..at + |sub|] == sub
  }

  /** The coded text names the endpoint and ends with the code, which reads back as the number. */
  lemma EndpointStrWithCode(e: EndpointException)
    requires e.HasCode()
    ensures OccursAt(e.EndpointText(), e.Str(), 9)
    ensures var digits := |e.Str()| - |IntToString(e.code.value)|;
      OccursAt(IntToString(e.code.value), e.Str(), digits) && ParseInt(e.Str()[digits..]) == e.code.value
  {
    var ep := e.EndpointText();
    var c := IntToString(e.code.value);
    var s := e.Str();
    var head := "Эндпоинт ";
    var tail := " недоступен. " + "Код ответа API: ";
    assert |head| == 9;
    assert s == head + ep + tail + c;
    assert s[9..9 + |ep|] == ep;
    assert s[|s| - |c|..] == c;
    ParseIntToString(e.code.value);
  }

  /** The generic text names the endpoint. */
  lemma EndpointStrWithoutCode(e: EndpointException)
    requires !e.HasCode()
    ensures OccursAt(e.EndpointText(), e.Str(), 33)
  {
    var ep := e.EndpointText();
    var head := "Ошибка при обращении к эндпоинту ";
    assert |head| == 33;
    assert e.Str() == head + ep + ".";
    assert e.Str()[33..33 + |ep|] == ep;
  }

  /** For one endpoint, two coded messages are equal exactly when the codes are. */
  lemma EndpointStrDistinguishesCodes(e1: EndpointException, e2: EndpointException)
    requires e1.HasCode() && e2.HasCode() && e1.endpoint == e2.endpoint
    ensures e1.Str() == e2.Str() <==> e1.code == e2.code
  {
    if e1.Str() == e2.Str() {
      var p := "Эндпоинт " + e1.EndpointText() + " недоступен. " + "Код ответа API: ";
      assert e1.Str() == p + IntToString(e1.code.value);
      assert e2.Str() == p + IntToString(e2.code.value);
      assert e1.Str()[|p|..] == IntToString(e1.code.value);
      assert e2.Str()[|p|..] == IntToString(e2.code.value);
      IntToStringInjective(e1.code.value, e2.code.value);
    }
  }

  /** A coded message never reads like the generic one, whatever the endpoints. */
  lemma EndpointStrKindsDiffer(e1: EndpointException, e2: EndpointException)
    requires e1.HasCode() && !e2.HasCode()
    ensures e1.Str() != e2.Str()
  {
    assert e1.Str()[0] == 'Э';
    assert e2.Str()[0] == 'О';
  }

  /** A falsy code (absent or zero) gives the generic text, exactly as no code does. */
  lemma EndpointStrFalsyCode(e: EndpointException)
    requires e.code.Some? && e.code.value == 0
    ensures e.Str() == EndpointException(endpoint := e.endpoint).Str()
    ensures e.Str() == "Ошибка при обращении к эндпоинту " + e.EndpointText() + "."
  {
  }

  /** A string literal for each name, separated by ", " (a reference for the repr of a list of plain names). */
  function QuotedNames(names: seq<string>): string
  {
    if names == [] then ""
    else if |names| == 1 then "'" + names[0] + "'"
    else "'" + names[0] + "', " + QuotedNames(names[1..])
  }

  /** A Python list of strings. */
  function StrList(names: seq<string>): (r: seq<Value>)
    ensures |r| == |names|
    ensures forall i :: 0 <= i < |names| ==> r[i] == Str(names[i])
  {
    if names == [] then [] else [Str(names[0])] + StrList(names[1..])
  }

  /** A name repr shows between single quotes, unchanged. */
  predicate PlainName(name: string)
  {
    forall i :: 0 <= i < |name| ==> Verbatim(name[i], '\'')
  }

  lemma {:induction false} ReprItemsOfNames(names: seq<string>)
    requires forall i :: 0 <= i < |names| ==> PlainName(names[i])
    ensures ReprItems(StrList(names)) == QuotedNames(names)
  {
    if names != [] {
      var n := names[0];
      assert '\'' !in n;
      EscapedVerbatim(n, '\'');
      assert Repr(Str(n)) == "'" + n + "'";
      assert StrList(names)[1..] == StrList(names[1..]);
      if |names| > 1 {
        ReprItemsOfNames(names[1..]);
      }
    }
  }

  lemma PyStrOfList(items: seq<Value>)
    ensures EmptyValueException(List(items)).Str() == EmptyValuePrefix + "[" + ReprItems(items) + "]"
  {
  }

  /** The message for a list of plain names: the prefix, then each name in single quotes, in brackets. */
  lemma EmptyValueStrOfNames(names: seq<string>)
    requires forall i :: 0 <= i < |names| ==> PlainName(names[i])
    ensures EmptyValueException(List(StrList(names))).Str() == EmptyValuePrefix + "[" + QuotedNames(names) + "]"
  {
    PyStrOfList(StrList(names));
    ReprItemsOfNames(names);
  }

  /** Every exception a poll cycle can raise. */
  datatype Error =
    | Endpoint(exception: EndpointException)
    | KeyError(key: Value)          // built-in KeyError with one argument
    | TypeError(message: string)    // built-in TypeError
    | DecodeError(message: string)  // the body of a 200 reply is not JSON

  /** str(error). A KeyError shows the repr of its argument, so a message it carries appears quoted. */
  function ErrorStr(e: Error): string
  {
    match e
    case Endpoint(x) => x.Str()
    case KeyError(key) => Repr(key)
    case TypeError(m) => m
    case DecodeError(m) => m
  }

  /** A KeyError raised with a message: the text is that message as a literal that reads back to it. */
  lemma KeyErrorStrQuotes(message: string)
    ensures Unquote(ErrorStr(KeyError(Str(message)))) == Some(message)
    ensures ErrorStr(KeyError(Str(message))) != message
  {
    UnquoteStrRepr(message);
    var r := StrRepr(message);
    assert |r| == |message| + 2 || |r| > |message| + 2 by {
      EscapedLength(message, QuoteFor(message));
    }
  }

  lemma {:induction false} EscapedLength(s: string, q: char)
    ensures |Escaped(s, q)| >= |s|
  {
    if s != [] {
      EscapedLength(s[1..], q);
    }
  }

  /** The outcome of a step that may raise. */
  datatype Result<+T> = Ok(value: T) | Err(error: Error)
}
