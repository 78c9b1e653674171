/**
 * The Python objects that `json.loads` builds from a response body, and the two
 * text conversions the bot applies to them: `str(...)` (inside f-strings) and
 * `repr(...)` (which Python's `KeyError` uses for its message).
 *
 * A JSON object is kept as an association list, because a dictionary's `repr`
 * shows its keys in insertion order. JSON numbers with a fraction or an exponent
 * are not part of this model.
 */
module PyValues {
  import opened Wrappers

  datatype Value =
    | Null
    | Bool(flag: bool)
    | Int(n: int)
    | Str(text: string)
    | List(items: seq<Value>)
    | Dict(members: seq<(string, Value)>)

  /** The name Python gives the type of `v`, as it appears in interpreter messages. */
  function TypeName(v: Value): string
  {
    match v
    case Null => "NoneType"
    case Bool(_) => "bool"
    case Int(_) => "int"
    case Str(_) => "str"
    case List(_) => "list"
    case Dict(_) => "dict"
  }

  // ---------------------------------------------------------------------------
  // Dictionary access
  // ---------------------------------------------------------------------------

  /** The value bound to `key`; when a decoded object repeats a key, the last binding wins. */
  function Lookup(members: seq<(string, Value)>, key: string): (r: Option<Value>)
    ensures r.Some? <==> exists i :: 0 <= i < |members| && members[i].0 == key
  {
    if members == [] then None
    else if members[|members| - 1].0 == key then Some(members[|members| - 1].1)
    else Lookup(members[..|members| - 1], key)
  }

  /** The position of the last binding of `key`: the one whose value a decoded dictionary keeps. */
  function LastBinding(members: seq<(string, Value)>, key: string): (j: nat)
    requires exists i :: 0 <= i < |members| && members[i].0 == key
    ensures j < |members| && members[j].0 == key
    ensures forall k :: j < k < |members| ==> members[k].0 != key
    ensures Lookup(members, key) == Some(members[j].1)
  {
    if members[|members| - 1].0 == key then |members| - 1
    else
      var i :| 0 <= i < |members| && members[i].0 == key;
      assert i < |members| - 1 && members[..|members| - 1][i].0 == key;
      LastBinding(members[..|members| - 1], key)
  }

  /** The value Lookup finds is the one of the key's last binding: a later binding overrides an earlier one. */
  lemma LookupLastBinding(members: seq<(string, Value)>, key: string)
    ensures Lookup(members, key).Some? ==>
      exists i :: 0 <= i < |members| && members[i] == (key, Lookup(members, key).value)
        && forall j :: i < j < |members| ==> members[j].0 != key
  {
    if Lookup(members, key).Some? {
      var i := LastBinding(members, key);
      assert members[i] == (key, Lookup(members, key).value);
    }
  }

  /** Position `i` holds the first binding of its key: where a decoded dictionary keeps that key. */
  predicate FirstBinding(members: seq<(string, Value)>, i: nat)
    requires i < |members|
  {
    forall k :: 0 <= k < i ==> members[k].0 != members[i].0
  }

  /** Rebinds `key` in place: the binding Lookup finds gets `v`, and nothing else moves. */
  function Update(members: seq<(string, Value)>, key: string, v: Value): (r: seq<(string, Value)>)
    ensures |r| == |members|
    ensures forall i :: 0 <= i < |members| ==> r[i].0 == members[i].0
  {
    if members == [] then []
    else if members[|members| - 1].0 == key then members[..|members| - 1] + [(key, v)]
    else Update(members[..|members| - 1], key, v) + [members[|members| - 1]]
  }

  /** After an update of a bound key, that key reads the new value. */
  lemma {:induction false} LookupUpdateSame(members: seq<(string, Value)>, key: string, v: Value)
    requires Lookup(members, key).Some?
    ensures Lookup(Update(members, key, v), key) == Some(v)
  {
    var n := |members|;
    assert members != [];
    var u := Update(members, key, v);
    if members[n - 1].0 != key {
      var p := members[..n - 1];
      assert Lookup(p, key) == Lookup(members, key);
      LookupUpdateSame(p, key, v);
      assert u == Update(p, key, v) + [members[n - 1]];
      assert u[..n - 1] == Update(p, key, v);
      assert u[n - 1] == members[n - 1];
      assert Lookup(u, key) == Lookup(u[..n - 1], key);
    } else {
      assert u == members[..n - 1] + [(key, v)];
      assert u[n - 1] == (key, v);
    }
  }

  /** An update leaves every other key reading what it read before. */
  lemma {:induction false} LookupUpdateOther(members: seq<(string, Value)>, key: string, v: Value, other: string)
    requires other != key
    ensures Lookup(Update(members, key, v), other) == Lookup(members, other)
  {
    if members != [] {
      var n := |members|;
      if members[n - 1].0 == key {
        assert Update(members, key, v)[..n - 1] == members[..n - 1];
      } else {
        LookupUpdateOther(members[..n - 1], key, v, other);
        assert Update(members, key, v)[..n - 1] == Update(members[..n - 1], key, v);
      }
    }
  }

  // ---------------------------------------------------------------------------
  // Decimal notation of integers, as str(int) writes it
  // ---------------------------------------------------------------------------

  function DigitChar(d: nat): char
    requires d < 10
  {
    "0123456789"[d]
  }

  function DigitValue(c: char): nat
  {
    if '0' <= c <= '9' then (c as int) - ('0' as int) else 0
  }

  predicate IsDigit(c: char)
  {
    '0' <= c <= '9'
  }

  /** The shortest decimal notation of `n`: at least one character, all digits. */
  function NatToString(n: nat): (r: string)
    ensures |r| >= 1
    ensures forall i :: 0 <= i < |r| ==> IsDigit(r[i])
    ensures |r| == 1 <==> n < 10
    ensures r[0] == '0' ==> n == 0
  {
    if n < 10 then [DigitChar(n)] else NatToString(n / 10) + [DigitChar(n % 10)]
  }

  function IntToString(i: int): (r: string)
  {
    if i < 0 then "-" + NatToString(-i) else NatToString(i)
  }

  /** Reads a string of decimal digits back as a number. */
  function ParseNat(t: string): nat
  {
    if t == [] then 0 else 10 * ParseNat(t[..|t| - 1]) + DigitValue(t[|t| - 1])
  }

  function ParseInt(t: string): int
  {
    if t != [] && t[0] == '-' then -(ParseNat(t[1..]) as int) else ParseNat(t)
  }

  lemma {:induction false} ParseNatToString(n: nat)
    ensures ParseNat(NatToString(n)) == n
  {
    if n >= 10 {
      var t := NatToString(n);
      assert t[..|t| - 1] == NatToString(n / 10);
      ParseNatToString(n / 10);
    }
  }

  /** Decimal notation loses nothing: the number can be read back from it. */
  lemma ParseIntToString(i: int)
    ensures ParseInt(IntToString(i)) == i
  {
    if i < 0 {
      var t := NatToString(-i);
      assert IntToString(i) == "-" + t;
      assert ("-" + t)[1..] == t;
      ParseNatToString(-i);
    } else {
      var t := NatToString(i);
      assert IsDigit(t[0]);
      ParseNatToString(i);
    }
  }

  lemma IntToStringInjective(a: int, b: int)
    requires IntToString(a) == IntToString(b)
    ensures a == b
  {
    ParseIntToString(a);
    ParseIntToString(b);
  }

  // ---------------------------------------------------------------------------
  // repr of a string
  // ---------------------------------------------------------------------------

  /** repr picks double quotes only for a string that holds a single quote and no double quote. */
  function QuoteFor(s: string): char
  {
    if '\'' in s && '"' !in s then '"' else '\''
  }

  /**
   * The characters repr writes as a \xNN escape: the C0 and C1 control characters,
   * DEL, the no-break space and the soft hyphen (those below U+0100 that
   * str.isprintable rejects).
   */
  predicate NonPrintable(c: char)
  {
    (c as int) < 0x20 || (0x7f <= (c as int) <= 0xa0) || (c as int) == 0xad
  }

  function HexDigit(d: nat): char
    requires d < 16
  {
    "0123456789abcdef"[d]
  }

  function HexValue(c: char): Option<nat>
  {
    if '0' <= c <= '9' then Some((c as int) - ('0' as int))
    else if 'a' <= c <= 'f' then Some((c as int) - ('a' as int) + 10)
    else None
  }

  /** How repr writes one character inside quotes `q`. */
  function EscapeChar(c: char, q: char): string
  {
    if c == '\\' then "\\\\"
    else if c == q then ['\\', q]
    else if c == '\t' then "\\t"
    else if c == '\n' then "\\n"
    else if c == '\r' then "\\r"
    else if NonPrintable(c) then "\\x" + [HexDigit((c as int) / 16), HexDigit((c as int) % 16)]
    else [c]
  }

  function Escaped(s: string, q: char): string
  {
    if s == [] then [] else EscapeChar(s[0], q) + Escaped(s[1..], q)
  }

  function StrRepr(s: string): string
  {
    var q := QuoteFor(s);
    [q] + Escaped(s, q) + [q]
  }

  /** A character repr copies as it is. */
  predicate Verbatim(c: char, q: char)
  {
    c != '\\' && c != q && !NonPrintable(c)
  }

  /** Without backslashes, the quote character or control characters, repr only adds the quotes. */
  lemma {:induction false} EscapedVerbatim(s: string, q: char)
    requires forall i :: 0 <= i < |s| ==> Verbatim(s[i], q)
    ensures Escaped(s, q) == s
  {
    if s != [] {
      EscapedVerbatim(s[1..], q);
    }
  }

  /** repr of a string without quotes, backslashes or control characters: the string in single quotes. */
  lemma ReprOfPlain(s: string)
    requires forall i :: 0 <= i < |s| ==> Verbatim(s[i], '\'')
    ensures Repr(Str(s)) == "'" + s + "'"
  {
    assert '\'' !in s;
    EscapedVerbatim(s, '\'');
  }

  /**
   * Reads one escape sequence (or one plain character) at the head of `t`, as
   * Python's string-literal syntax does: the character and how many were consumed.
   */
  function DecodeEscape(t: string): (r: Option<(char, nat)>)
    ensures r.Some? ==> 1 <= r.value.1 <= |t|
  {
    if t == [] then None
    else if t[0] != '\\' then Some((t[0], 1))
    else if |t| < 2 then None
    else if t[1] == '\\' || t[1] == '\'' || t[1] == '"' then Some((t[1], 2))
    else if t[1] == 't' then Some(('\t', 2))
    else if t[1] == 'n' then Some(('\n', 2))
    else if t[1] == 'r' then Some(('\r', 2))
    else if t[1] == 'x' && |t| >= 4 && HexValue(t[2]).Some? && HexValue(t[3]).Some? then
      Some(((HexValue(t[2]).value * 16 + HexValue(t[3]).value) as char, 4))
    else None
  }

  /** The inverse of Escaped: the text a quoted literal body stands for. */
  function Unescape(t: string): Option<string>
    decreases |t|
  {
    if t == [] then Some([])
    else match DecodeEscape(t)
      case None => None
      case Some((c, width)) =>
        match Unescape(t[width..])
        case None => None
        case Some(rest) => Some([c] + rest)
  }

  lemma HexRoundTrip(d: nat)
    requires d < 16
    ensures HexValue(HexDigit(d)) == Some(d)
  {
  }

  lemma DecodeEscapeChar(c: char, q: char, rest: string)
    requires q == '\'' || q == '"'
    ensures DecodeEscape(EscapeChar(c, q) + rest) == Some((c, |EscapeChar(c, q)|))
  {
    var e := EscapeChar(c, q);
    if c != '\\' && c != q && c != '\t' && c != '\n' && c != '\r' && NonPrintable(c) {
      var k := c as int;
      HexRoundTrip(k / 16);
      HexRoundTrip(k % 16);
      var t := e + rest;
      assert t[0] == '\\' && t[1] == 'x' && t[2] == HexDigit(k / 16) && t[3] == HexDigit(k % 16);
      assert (k / 16 * 16 + k % 16) as char == c;
    }
  }

  /** Escaping loses nothing: the escaped body reads back as the original string. */
  lemma {:induction false} UnescapeEscaped(s: string, q: char)
    requires q == '\'' || q == '"'
    ensures Unescape(Escaped(s, q)) == Some(s)
  {
    if s != [] {
      var e := EscapeChar(s[0], q);
      var rest := Escaped(s[1..], q);
      DecodeEscapeChar(s[0], q, rest);
      assert Escaped(s, q) == e + rest;
      assert (e + rest)[|e|..] == rest;
      UnescapeEscaped(s[1..], q);
      assert [s[0]] + s[1..] == s;
    }
  }

  /** Reads a quoted string literal, as produced by repr, back into its text. */
  function Unquote(t: string): Option<string>
  {
    if |t| >= 2 && (t[0] == '\'' || t[0] == '"') && t[|t| - 1] == t[0] then Unescape(t[1..|t| - 1])
    else None
  }

  /** repr of a string is a literal that reads back as that string. */
  lemma UnquoteStrRepr(s: string)
    ensures Unquote(StrRepr(s)) == Some(s)
  {
    var q := QuoteFor(s);
    UnescapeEscaped(s, q);
    assert StrRepr(s)[1..|StrRepr(s)| - 1] == Escaped(s, q);
  }

  lemma StrReprInjective(s: string, t: string)
    requires StrRepr(s) == StrRepr(t)
    ensures s == t
  {
    UnquoteStrRepr(s);
    UnquoteStrRepr(t);
  }

  // ---------------------------------------------------------------------------
  // repr and str of any value
  // ---------------------------------------------------------------------------

  function Repr(v: Value): string
    decreases v, 1
  {
    match v
    case Null => "None"
    case Bool(b) => if b then "True" else "False"
    case Int(n) => IntToString(n)
    case Str(s) => StrRepr(s)
    case List(items) => "[" + ReprItems(items) + "]"
    case Dict(_) => "{" + ReprMembers(v, 0, false) + "}"
  }

  /** The elements of a list, each as repr writes it, separated by ", ". */
  function ReprItems(items: seq<Value>): string
    decreases items
  {
    if items == [] then ""
    else if |items| == 1 then Repr(items[0])
    else Repr(items[0]) + ", " + ReprItems(items[1..])
  }

  /**
   * The entries of a dictionary from position `i` on, as "key: value" separated
   * by ", " (`started` says whether one was written before). A decoded object
   * that repeats a key holds it once, where it first appeared, with the value of
   * its last binding.
   */
  function ReprMembers(d: Value, i: nat, started: bool): string
    requires d.Dict? && i <= |d.members|
    decreases d, 0, |d.members| - i
  {
    if i == |d.members| then ""
    else if !FirstBinding(d.members, i) then ReprMembers(d, i + 1, started)
    else
      var j := LastBinding(d.members, d.members[i].0);
      assert d.members[j] in d.members;
      var member := StrRepr(d.members[i].0) + ": " + Repr(d.members[j].1);
      (if started then ", " else "") + member + ReprMembers(d, i + 1, true)
  }

  /** A key bound twice is shown once, with its last value. */
  lemma ReprRepeatedKey(k: string, v1: Value, v2: Value)
    ensures Repr(Dict([(k, v1), (k, v2)])) == "{" + StrRepr(k) + ": " + Repr(v2) + "}"
  {
    var d := Dict([(k, v1), (k, v2)]);
    assert d.members[1].0 == k && d.members[0].0 == d.members[1].0;
    assert LastBinding(d.members, k) == 1;
    assert !FirstBinding(d.members, 1);
    assert ReprMembers(d, 1, true) == "";
  }

  /** A key bound again after another key keeps its first position and takes its last value. */
  lemma ReprRepeatedKeyOrder(k1: string, k2: string, v1: Value, v2: Value, v3: Value)
    requires k1 != k2
    ensures Repr(Dict([(k1, v1), (k2, v2), (k1, v3)]))
         == "{" + (StrRepr(k1) + ": " + Repr(v3)) + (", " + StrRepr(k2) + ": " + Repr(v2)) + "}"
  {
    var d := Dict([(k1, v1), (k2, v2), (k1, v3)]);
    ReprAtFirstKey(k1, k2, v1, v2, v3);
    ReprAfterFirstKey(k1, k2, v1, v2, v3);
    var first := StrRepr(k1) + ": " + Repr(v3);
    var second := ", " + StrRepr(k2) + ": " + Repr(v2);
    assert ReprMembers(d, 0, false) == first + second;
    assert Repr(d) == "{" + ReprMembers(d, 0, false) + "}";
  }

  /** The first entry of that dictionary: k1 with its last value. */
  lemma ReprAtFirstKey(k1: string, k2: string, v1: Value, v2: Value, v3: Value)
    ensures var d := Dict([(k1, v1), (k2, v2), (k1, v3)]);
      ReprMembers(d, 0, false) == StrRepr(k1) + ": " + Repr(v3) + ReprMembers(d, 1, true)
  {
    var d := Dict([(k1, v1), (k2, v2), (k1, v3)]);
    assert d.members[2].0 == k1;
    assert LastBinding(d.members, k1) == 2;
    assert FirstBinding(d.members, 0);
  }

  /** The rest of that dictionary: k2, and nothing for k1's repeated binding. */
  lemma ReprAfterFirstKey(k1: string, k2: string, v1: Value, v2: Value, v3: Value)
    requires k1 != k2
    ensures ReprMembers(Dict([(k1, v1), (k2, v2), (k1, v3)]), 1, true) == ", " + StrRepr(k2) + ": " + Repr(v2)
  {
    var d := Dict([(k1, v1), (k2, v2), (k1, v3)]);
    assert d.members[1].0 == k2 && d.members[0].0 == d.members[2].0;
    assert LastBinding(d.members, k2) == 1;
    assert !FirstBinding(d.members, 2);
    assert ReprMembers(d, 2, true) == "";
    assert FirstBinding(d.members, 1);
  }

  // ---------------------------------------------------------------------------
  // The dictionary json.loads builds from an object's bindings
  // ---------------------------------------------------------------------------

  /** Storing `key` in a dictionary: a present key keeps its place and takes `v`, a new key goes last. */
  function Insert(entries: seq<(string, Value)>, key: string, v: Value): seq<(string, Value)>
  {
    if entries == [] then [(key, v)]
    else if entries[0].0 == key then [(key, v)] + entries[1..]
    else [entries[0]] + Insert(entries[1..], key, v)
  }

  /** The dictionary built by storing the bindings one after another, in order. */
  function Build(members: seq<(string, Value)>): seq<(string, Value)>
  {
    if members == [] then []
    else Insert(Build(members[..|members| - 1]), members[|members| - 1].0, members[|members| - 1].1)
  }

  /** A dictionary's entries, each as "key: value", separated by ", ". */
  function ReprEntries(entries: seq<(string, Value)>): string
  {
    if entries == [] then ""
    else if |entries| == 1 then StrRepr(entries[0].0) + ": " + Repr(entries[0].1)
    else StrRepr(entries[0].0) + ": " + Repr(entries[0].1) + ", " + ReprEntries(entries[1..])
  }

  /** The entries ReprMembers writes from position `i` on: first bindings, each with its key's last value. */
  ghost function Kept(m: seq<(string, Value)>, i: nat): seq<(string, Value)>
    requires i <= |m|
    decreases |m| - i
  {
    if i == |m| then []
    else if FirstBinding(m, i) then
      assert m[i].0 == m[i].0;
      [(m[i].0, m[LastBinding(m, m[i].0)].1)] + Kept(m, i + 1)
    else Kept(m, i + 1)
  }

  /** `key` is bound somewhere before position `i`. */
  predicate BoundBefore(m: seq<(string, Value)>, key: string, i: nat)
  {
    exists j :: 0 <= j < i && j < |m| && m[j].0 == key
  }

  /** What ReprMembers writes for the entries kept from position `i` on. */
  ghost predicate WritesKept(m: seq<(string, Value)>, i: nat, started: bool)
    requires i <= |m|
  {
    ReprMembers(Dict(m), i, started)
      == if Kept(m, i) == [] then "" else (if started then ", " else "") + ReprEntries(Kept(m, i))
  }

  /** ReprMembers writes exactly the kept entries. */
  lemma {:induction false} ReprMembersKept(m: seq<(string, Value)>, i: nat, started: bool)
    requires i <= |m|
    ensures WritesKept(m, i, started)
    decreases |m| - i
  {
    if i < |m| {
      if FirstBinding(m, i) {
        ReprMembersKept(m, i + 1, true);
        WritesKeptFirst(m, i, started);
      } else {
        ReprMembersKept(m, i + 1, started);
        WritesKeptSkip(m, i, started);
      }
    }
  }

  /** A first binding: its entry, then the rest. */
  lemma WritesKeptFirst(m: seq<(string, Value)>, i: nat, started: bool)
    requires i < |m| && FirstBinding(m, i) && WritesKept(m, i + 1, true)
    ensures WritesKept(m, i, started)
  {
    assert m[i].0 == m[i].0;
    var e := (m[i].0, m[LastBinding(m, m[i].0)].1);
    var rest := Kept(m, i + 1);
    assert Kept(m, i) == [e] + rest;
    ReprEntriesCons(e, rest);
    var lead := if started then ", " else "";
    var member := StrRepr(e.0) + ": " + Repr(e.1);
    var tail := if rest == [] then "" else ", " + ReprEntries(rest);
    assert ReprMembers(Dict(m), i + 1, true) == tail;
    assert ReprMembers(Dict(m), i, started) == lead + member + tail;
    assert ReprEntries(Kept(m, i)) == member + tail;
    AppendAssociative(lead, member, tail);
  }

  lemma AppendAssociative(a: string, b: string, c: string)
    ensures a + b + c == a + (b + c)
  {
  }

  /** A binding whose key was already written adds nothing. */
  lemma WritesKeptSkip(m: seq<(string, Value)>, i: nat, started: bool)
    requires i < |m| && !FirstBinding(m, i) && WritesKept(m, i + 1, started)
    ensures WritesKept(m, i, started)
  {
    assert Kept(m, i) == Kept(m, i + 1);
    assert ReprMembers(Dict(m), i, started) == ReprMembers(Dict(m), i + 1, started);
  }

  /** ReprEntries of an entry followed by others. */
  lemma ReprEntriesCons(e: (string, Value), rest: seq<(string, Value)>)
    ensures ReprEntries([e] + rest)
         == StrRepr(e.0) + ": " + Repr(e.1) + (if rest == [] then "" else ", " + ReprEntries(rest))
  {
    assert ([e] + rest)[0] == e;
    assert ([e] + rest)[1..] == rest;
  }

  /** A binding appended for `k` becomes k's last binding and leaves every other key's last binding where it was. */
  lemma LastBindingAppend(m: seq<(string, Value)>, k: string, v: Value, key: string)
    requires key == k || BoundBefore(m, key, |m|)
    ensures BoundBefore(m + [(k, v)], key, |m| + 1)
    ensures LastBinding(m + [(k, v)], key) == if key == k then |m| else LastBinding(m, key)
  {
    var m' := m + [(k, v)];
    assert m'[|m|] == (k, v);
    assert m'[..|m|] == m;
    if key != k {
      var j :| 0 <= j < |m| && m[j].0 == key;
      assert m'[j].0 == key;
    }
  }

  /** Appending a binding of `k` changes what is kept from position `i` as storing `k` does, unless `k` was already kept earlier. */
  lemma {:induction false} KeptAppend(m: seq<(string, Value)>, k: string, v: Value, i: nat)
    requires i <= |m|
    ensures Kept(m + [(k, v)], i) == if BoundBefore(m, k, i) then Kept(m, i) else Insert(Kept(m, i), k, v)
    decreases |m| - i
  {
    if i == |m| {
      KeptAppendEnd(m, k, v);
    } else {
      KeptAppend(m, k, v, i + 1);
      KeptAppendStep(m, k, v, i);
    }
  }

  /** The appended binding itself is kept exactly when its key is new. */
  lemma KeptAppendEnd(m: seq<(string, Value)>, k: string, v: Value)
    ensures Kept(m + [(k, v)], |m|) == if BoundBefore(m, k, |m|) then [] else [(k, v)]
  {
    var m' := m + [(k, v)];
    var i := |m|;
    assert m'[i] == (k, v);
    assert Kept(m', i + 1) == [];
    if BoundBefore(m, k, i) {
      var j :| 0 <= j < i && j < |m| && m[j].0 == k;
      assert m'[j].0 == m'[i].0;
      assert !FirstBinding(m', i);
    } else {
      forall j | 0 <= j < i
        ensures m'[j].0 != m'[i].0
      {
        assert m'[j] == m[j];
      }
      assert FirstBinding(m', i);
      LastBindingAppend(m, k, v, k);
    }
  }

  /** One position of KeptAppend's induction. */
  lemma KeptAppendStep(m: seq<(string, Value)>, k: string, v: Value, i: nat)
    requires i < |m|
    requires Kept(m + [(k, v)], i + 1)
          == if BoundBefore(m, k, i + 1) then Kept(m, i + 1) else Insert(Kept(m, i + 1), k, v)
    ensures Kept(m + [(k, v)], i) == if BoundBefore(m, k, i) then Kept(m, i) else Insert(Kept(m, i), k, v)
  {
    var m' := m + [(k, v)];
    var key := m[i].0;
    assert m'[i] == m[i];
    assert FirstBinding(m', i) == FirstBinding(m, i) by {
      forall j | 0 <= j < i
        ensures m'[j] == m[j]
      {
      }
    }
    assert BoundBefore(m, key, |m|) by {
      assert m[i].0 == key;
    }
    LastBindingAppend(m, k, v, key);
    if BoundBefore(m, k, i) {
      var j :| 0 <= j < i && j < |m| && m[j].0 == k;
      assert BoundBefore(m, k, i + 1);
    } else if key == k {
      assert m[i].0 == k;
      assert BoundBefore(m, k, i + 1);
      assert FirstBinding(m, i);
    } else {
      assert !BoundBefore(m, k, i + 1);
    }
  }

  /** Storing the bindings one by one gives the kept entries. */
  lemma {:induction false} BuildKept(m: seq<(string, Value)>)
    ensures Build(m) == Kept(m, 0)
  {
    if m != [] {
      var n := |m| - 1;
      assert m == m[..n] + [m[n]];
      BuildKept(m[..n]);
      KeptAppend(m[..n], m[n].0, m[n].1, 0);
    }
  }

  /**
   * A decoded object prints as the dictionary built by storing its bindings in
   * order: each key once, where it was first stored, with its last value.
   */
  lemma ReprDecodedObject(m: seq<(string, Value)>)
    ensures Repr(Dict(m)) == "{" + ReprEntries(Build(m)) + "}"
  {
    BuildKept(m);
    ReprMembersKept(m, 0, false);
    assert WritesKept(m, 0, false);
    var kept := Kept(m, 0);
    if kept == [] {
      assert ReprEntries(kept) == "";
    }
    assert ReprMembers(Dict(m), 0, false) == ReprEntries(kept);
    assert Repr(Dict(m)) == "{" + ReprMembers(Dict(m), 0, false) + "}";
  }

  /** str(v): a string is shown as itself, anything else as its repr. */
  function PyStr(v: Value): string
  {
    if v.Str? then v.text else Repr(v)
  }
}
