/**
 * JSON text as the JSON-blob columns of the droplet models store it.
 *
 * `Serialize` writes a value the way Python's `json.dumps` does with its
 * default settings (separators ", " and ": ", `ensure_ascii`: every
 * character outside printable ASCII becomes a `\uXXXX` escape, characters
 * beyond the Basic Multilingual Plane a surrogate pair).  `Parse` reads text
 * the way `json.loads` does, whitespace and all, for the values this model
 * has: null, booleans, integers, strings, arrays and objects.  The lemma
 * `ParseSerialize` is the round trip the getters and setters rely on.
 *
 * Below the text form are the pieces of Python's data model that the
 * droplet manager applies to parsed values: truthiness, `for x in v`,
 * `dict.get` and the dictionary an object denotes.
 */
module Json {
  import opened Wrappers
  import opened Text

  datatype Value =
    | Null
    | Bool(b: bool)
    | Num(n: int)
    | Str(s: string)
    | Arr(items: seq<Value>)
    | Obj(members: seq<Member>)

  /** One `"key": value` pair of an object, in the order the text lists them. */
  datatype Member = Member(key: string, val: Value)

  predicate IsWs(c: char) {
    c == ' ' || c == '\t' || c == '\n' || c == '\r'
  }

  // ---------------------------------------------------------------------
  // Serialize (json.dumps)
  // ---------------------------------------------------------------------

  /** The characters a serialized value can start with; none is whitespace or a closing bracket. */
  predicate StartsValue(c: char) {
    c == 'n' || c == 't' || c == 'f' || c == '"' || c == '[' || c == '{' || c == '-' || IsDigit(c)
  }

  function Serialize(v: Value): (s: string)
    ensures s != [] && StartsValue(s[0])
  {
    match v
    case Null => "null"
    case Bool(b) => if b then "true" else "false"
    case Num(n) => IntToString(n)
    case Str(str) => Quote(str)
    case Arr(items) => "[" + SerializeItems(items) + "]"
    case Obj(ms) => "{" + SerializeMembers(ms) + "}"
  }

  function SerializeItems(items: seq<Value>): (s: string)
    ensures items != [] ==> s != [] && StartsValue(s[0])
  {
    if items == [] then ""
    else if |items| == 1 then Serialize(items[0])
    else Serialize(items[0]) + ", " + SerializeItems(items[1..])
  }

  function SerializeMember(m: Member): (s: string)
    ensures s != [] && s[0] == '"'
  {
    Quote(m.key) + ": " + Serialize(m.val)
  }

  function SerializeMembers(ms: seq<Member>): (s: string)
    ensures ms != [] ==> s != [] && s[0] == '"'
  {
    if ms == [] then ""
    else if |ms| == 1 then SerializeMember(ms[0])
    else SerializeMember(ms[0]) + ", " + SerializeMembers(ms[1..])
  }

  function Quote(s: string): (q: string)
    ensures q != [] && q[0] == '"'
  {
    "\"" + Escape(s) + "\""
  }

  function Escape(s: string): string {
    if s == [] then "" else EscapeChar(s[0]) + Escape(s[1..])
  }

  predicate IsPrintableAscii(c: char) {
    ' ' <= c <= '~'
  }

  /** Four lower-case hex digits of a code unit. */
  function Hex4(n: nat): (s: string)
    requires n < 0x10000
    ensures |s| == 4 && forall i :: 0 <= i < 4 ==> IsHexDigit(s[i])
  {
    [HexChar(n / 0x1000), HexChar(n / 0x100 % 16), HexChar(n / 16 % 16), HexChar(n % 16)]
  }

  /** One character of a string literal, escaped as `json.dumps` escapes it. */
  function EscapeChar(c: char): (e: string)
    ensures e != [] && e[0] != '"'
    ensures e == [c] <==> IsPrintableAscii(c) && c != '"' && c != '\\'
    ensures e != [c] ==> |e| >= 2 && e[0] == '\\'
  {
    if c == '"' then "\\\""
    else if c == '\\' then "\\\\"
    else if c == '\n' then "\\n"
    else if c == '\r' then "\\r"
    else if c == '\t' then "\\t"
    else if c == '\U{8}' then "\\b"
    else if c == '\U{C}' then "\\f"
    else if IsPrintableAscii(c) then [c]
    else if c as int < 0x10000 then "\\u" + Hex4(c as int)
    else
      var n := c as int - 0x10000;
      "\\u" + Hex4(0xD800 + n / 0x400) + "\\u" + Hex4(0xDC00 + n % 0x400)
  }

  // ---------------------------------------------------------------------
  // Parse (json.loads)
  // ---------------------------------------------------------------------

  function SkipWs(s: string): (r: string)
    ensures |r| <= |s|
    ensures r == [] || !IsWs(r[0])
  {
    if s != [] && IsWs(s[0]) then SkipWs(s[1..]) else s
  }

  /** The whole text is one value, with nothing but whitespace around it. */
  function Parse(text: string): Option<Value> {
    match ParseValue(SkipWs(text))
    case None => None
    case Some((v, rest)) => if SkipWs(rest) == [] then Some(v) else None
  }

  /** One value at the very start of `s`; the text after it is returned with it. */
  function ParseValue(s: string): (r: Option<(Value, string)>)
    ensures r.Some? ==> |r.value.1| < |s|
    decreases |s|, 0
  {
    if s == [] then None
    else if s[0] == 'n' then
      if |s| >= 4 && s[..4] == "null" then Some((Null, s[4..])) else None
    else if s[0] == 't' then
      if |s| >= 4 && s[..4] == "true" then Some((Bool(true), s[4..])) else None
    else if s[0] == 'f' then
      if |s| >= 5 && s[..5] == "false" then Some((Bool(false), s[5..])) else None
    else if s[0] == '"' then ParseString(s[1..])
    else if s[0] == '[' then ParseArray(s[1..])
    else if s[0] == '{' then ParseObject(s[1..])
    else if s[0] == '-' || IsDigit(s[0]) then ParseNumber(s)
    else None
  }

  /** The rest of a string literal after its opening quote. */
  function ParseString(s: string): (r: Option<(Value, string)>)
    ensures r.Some? ==> |r.value.1| < |s|
  {
    match ParseStringBody(s)
    case None => None
    case Some((str, rest)) => Some((Str(str), rest))
  }

  /** The number of decimal digits `s` starts with. */
  function DigitSpan(s: string): (k: nat)
    ensures k <= |s| && AllDigits(s[..k])
    ensures k < |s| ==> !IsDigit(s[k])
  {
    if s != [] && IsDigit(s[0]) then 1 + DigitSpan(s[1..]) else 0
  }

  /**
   * An integer: an optional minus sign, then `0` or digits not starting with
   * `0`.  A fraction or an exponent would make a float, which this model
   * does not carry, so such text does not parse.
   */
  function ParseNumber(s: string): (r: Option<(Value, string)>)
    requires s != []
    ensures r.Some? ==> |r.value.1| < |s|
  {
    if s[0] == '-' then ParseMagnitude(s[1..], true) else ParseMagnitude(s, false)
  }

  /** The digits of an integer after its optional minus sign. */
  function ParseMagnitude(body: string, neg: bool): (r: Option<(Value, string)>)
    ensures r.Some? ==> |r.value.1| < |body|
  {
    var k := DigitSpan(body);
    if k == 0 || (body[0] == '0' && k > 1) then None
    else
      var rest := body[k..];
      if rest != [] && (rest[0] == '.' || rest[0] == 'e' || rest[0] == 'E') then None
      else
        var mag: int := DigitsValue(body[..k]);
        Some((Num(if neg then -mag else mag), rest))
  }

  /** The characters of a string literal up to its closing quote (the opening one is already read). */
  function ParseStringBody(s: string): (r: Option<(string, string)>)
    ensures r.Some? ==> |r.value.1| < |s|
  {
    if s == [] then None
    else if s[0] == '"' then Some(([], s[1..]))
    else if s[0] == '\\' then
      match ParseEscape(s[1..])
      case None => None
      case Some((c, after)) =>
        match ParseStringBody(after)
        case None => None
        case Some((str, rest)) => Some(([c] + str, rest))
    else if (s[0] as int) < 0x20 then None
    else
      match ParseStringBody(s[1..])
      case None => None
      case Some((str, rest)) => Some(([s[0]] + str, rest))
  }

  /** The value of four hex digits at the start of `s`. */
  function ReadHex4(s: string): (r: Option<nat>)
    ensures r.Some? ==> |s| >= 4 && r.value < 0x10000
  {
    if |s| >= 4 && IsHexDigit(s[0]) && IsHexDigit(s[1]) && IsHexDigit(s[2]) && IsHexDigit(s[3]) then
      Some(HexValue(s[0]) * 0x1000 + HexValue(s[1]) * 0x100 + HexValue(s[2]) * 16 + HexValue(s[3]))
    else None
  }

  predicate IsHighSurrogate(n: int) {
    0xD800 <= n < 0xDC00
  }

  predicate IsLowSurrogate(n: int) {
    0xDC00 <= n < 0xE000
  }

  /**
   * The character an escape denotes (the backslash is already read).  A
   * high surrogate followed by an escaped low surrogate denotes the astral
   * character the pair encodes.  Python reads any other surrogate escape as
   * a string holding that lone surrogate; a Dafny `char` cannot hold one, so
   * here such an escape does not parse.
   */
  function ParseEscape(s: string): (r: Option<(char, string)>)
    ensures r.Some? ==> |r.value.1| < |s|
  {
    if s == [] then None
    else if s[0] == '"' then Some(('"', s[1..]))
    else if s[0] == '\\' then Some(('\\', s[1..]))
    else if s[0] == '/' then Some(('/', s[1..]))
    else if s[0] == 'b' then Some(('\U{8}', s[1..]))
    else if s[0] == 'f' then Some(('\U{C}', s[1..]))
    else if s[0] == 'n' then Some(('\n', s[1..]))
    else if s[0] == 'r' then Some(('\r', s[1..]))
    else if s[0] == 't' then Some(('\t', s[1..]))
    else if s[0] == 'u' then
      match ReadHex4(s[1..])
      case None => None
      case Some(hi) =>
        if IsHighSurrogate(hi) then
          if |s| >= 7 && s[5] == '\\' && s[6] == 'u' then
            match ReadHex4(s[7..])
            case None => None
            case Some(lo) =>
              if IsLowSurrogate(lo) then
                Some(((0x10000 + (hi - 0xD800) * 0x400 + (lo - 0xDC00)) as char, s[11..]))
              else None
          else None
        else if IsLowSurrogate(hi) then None
        else Some((hi as char, s[5..]))
    else None
  }

  /** The rest of an array after its `[`. */
  function ParseArray(s: string): (r: Option<(Value, string)>)
    ensures r.Some? ==> |r.value.1| < |s|
    decreases |s|, 2
  {
    var t := SkipWs(s);
    if t != [] && t[0] == ']' then Some((Arr([]), t[1..]))
    else
      match ParseElements(t)
      case None => None
      case Some((items, rest)) => Some((Arr(items), rest))
  }

  /** One or more comma-separated values followed by `]`. */
  function ParseElements(s: string): (r: Option<(seq<Value>, string)>)
    ensures r.Some? ==> |r.value.1| < |s|
    decreases |s|, 1
  {
    match ParseValue(s)
    case None => None
    case Some((v, after)) => ParseMoreElements(v, after)
  }

  /** After an element `v`: either `]`, or a comma and the remaining elements. */
  function ParseMoreElements(v: Value, s: string): (r: Option<(seq<Value>, string)>)
    ensures r.Some? ==> |r.value.1| < |s|
    decreases |s|, 0
  {
    var t := SkipWs(s);
    if t == [] then None
    else if t[0] == ']' then Some(([v], t[1..]))
    else if t[0] == ',' then
      match ParseElements(SkipWs(t[1..]))
      case None => None
      case Some((more, rest)) => Some(([v] + more, rest))
    else None
  }

  /** The rest of an object after its `{`. */
  function ParseObject(s: string): (r: Option<(Value, string)>)
    ensures r.Some? ==> |r.value.1| < |s|
    decreases |s|, 3
  {
    var t := SkipWs(s);
    if t != [] && t[0] == '}' then Some((Obj([]), t[1..]))
    else
      match ParseMembers(t)
      case None => None
      case Some((ms, rest)) => Some((Obj(ms), rest))
  }

  /** One or more comma-separated `"key": value` pairs followed by `}`. */
  function ParseMembers(s: string): (r: Option<(seq<Member>, string)>)
    ensures r.Some? ==> |r.value.1| < |s|
    decreases |s|, 2
  {
    if s == [] || s[0] != '"' then None
    else
      match ParseStringBody(s[1..])
      case None => None
      case Some((key, afterKey)) => ParseMemberValue(key, afterKey)
  }

  /** After a member's key: a colon, the value, then the remaining members. */
  function ParseMemberValue(key: string, s: string): (r: Option<(seq<Member>, string)>)
    ensures r.Some? ==> |r.value.1| < |s|
    decreases |s|, 1
  {
    var t := SkipWs(s);
    if t == [] || t[0] != ':' then None
    else
      match ParseValue(SkipWs(t[1..]))
      case None => None
      case Some((v, after)) => ParseMoreMembers(Member(key, v), after)
  }

  /** After a member `m`: either `}`, or a comma and the remaining members. */
  function ParseMoreMembers(m: Member, s: string): (r: Option<(seq<Member>, string)>)
    ensures r.Some? ==> |r.value.1| < |s|
    decreases |s|, 0
  {
    var u := SkipWs(s);
    if u == [] then None
    else if u[0] == '}' then Some(([m], u[1..]))
    else if u[0] == ',' then
      match ParseMembers(SkipWs(u[1..]))
      case None => None
      case Some((more, rest)) => Some(([m] + more, rest))
    else None
  }

  // ---------------------------------------------------------------------
  // Round trip
  // ---------------------------------------------------------------------

  /** What may follow a value inside serialized text. */
  predicate Delimited(rest: string) {
    rest == [] || rest[0] == ',' || rest[0] == ']' || rest[0] == '}'
  }

  /** `json.loads(json.dumps(v)) == v`. */
  lemma RoundTrip(v: Value)
    ensures Parse(Serialize(v)) == Some(v)
  {
    ParseSerialize(v, []);
    assert Serialize(v) + [] == Serialize(v);
  }

  lemma {:induction false} ParseSerialize(v: Value, rest: string)
    requires Delimited(rest)
    ensures ParseValue(Serialize(v) + rest) == Some((v, rest))
  {
    match v
    case Null =>
      var s := Serialize(v) + rest;
      assert s[..4] == "null" && s[4..] == rest;
    case Bool(b) =>
      var s := Serialize(v) + rest;
      if b { assert s[..4] == "true" && s[4..] == rest; }
      else { assert s[..5] == "false" && s[5..] == rest; }
    case Num(n) =>
      ParseSerializeNum(n, rest);
    case Str(str) =>
      ParseSerializeStr(str, rest);
    case Arr(items) =>
      if items != [] {
        ParseSerializeItems(items, rest);
      }
      ParseSerializeArr(items, rest);
    case Obj(ms) =>
      if ms != [] {
        ParseSerializeMembers(ms, rest);
      }
      ParseSerializeObj(ms, rest);
  }

  lemma ParseSerializeStr(str: string, rest: string)
    ensures ParseValue(Serialize(Str(str)) + rest) == Some((Str(str), rest))
  {
    var s := Serialize(Str(str)) + rest;
    assert s[0] == '"';
    assert s[1..] == Escape(str) + "\"" + rest;
    ParseEscaped(str, rest);
  }

  /** How `ParseValue` dispatches on a string, an array or an object. */
  lemma ParseValueAt(s: string)
    requires s != []
    ensures s[0] == '"' ==> ParseValue(s) == ParseString(s[1..])
    ensures s[0] == '[' ==> ParseValue(s) == ParseArray(s[1..])
    ensures s[0] == '{' ==> ParseValue(s) == ParseObject(s[1..])
  {
  }

  lemma ParseSerializeArr(items: seq<Value>, rest: string)
    requires items != [] ==> ParseElements(SerializeItems(items) + "]" + rest) == Some((items, rest))
    ensures ParseValue(Serialize(Arr(items)) + rest) == Some((Arr(items), rest))
  {
    var s := Serialize(Arr(items)) + rest;
    var body := SerializeItems(items) + "]" + rest;
    assert s[0] == '[' && s[1..] == body;
    ParseValueAt(s);
    if items == [] {
      assert body == "]" + rest;
      assert ParseArray(body) == Some((Arr([]), rest));
    } else {
      assert SkipWs(body) == body;
      assert ParseArray(body) == Some((Arr(items), rest));
    }
  }

  lemma ParseSerializeObj(ms: seq<Member>, rest: string)
    requires ms != [] ==> ParseMembers(SerializeMembers(ms) + "}" + rest) == Some((ms, rest))
    ensures ParseValue(Serialize(Obj(ms)) + rest) == Some((Obj(ms), rest))
  {
    var s := Serialize(Obj(ms)) + rest;
    var body := SerializeMembers(ms) + "}" + rest;
    assert s[0] == '{' && s[1..] == body;
    ParseValueAt(s);
    if ms == [] {
      assert body == "}" + rest;
      assert ParseObject(body) == Some((Obj([]), rest));
    } else {
      assert SkipWs(body) == body;
      assert ParseObject(body) == Some((Obj(ms), rest));
    }
  }

  lemma {:induction false} ParseSerializeItems(items: seq<Value>, rest: string)
    requires items != []
    ensures ParseElements(SerializeItems(items) + "]" + rest) == Some((items, rest))
  {
    if |items| == 1 {
      LastItemText(items, rest);
      ParseSerialize(items[0], "]" + rest);
      LastElement(items[0], rest);
      assert items == [items[0]];
    } else {
      ItemsText(items, rest);
      var more := SerializeItems(items[1..]) + "]" + rest;
      ParseSerialize(items[0], ", " + more);
      ParseSerializeItems(items[1..], rest);
      NextElement(items[0], more, items[1..], rest);
      assert [items[0]] + items[1..] == items;
    }
  }

  /** The text of a one-item list. */
  lemma LastItemText(items: seq<Value>, rest: string)
    requires |items| == 1
    ensures SerializeItems(items) + "]" + rest == Serialize(items[0]) + ("]" + rest)
  {
  }

  /** The text of a list of several items, split after its first item. */
  lemma ItemsText(items: seq<Value>, rest: string)
    requires |items| > 1
    ensures var more := SerializeItems(items[1..]) + "]" + rest;
      SerializeItems(items) + "]" + rest == Serialize(items[0]) + (", " + more)
      && !IsWs(more[0])
  {
    var a, b := Serialize(items[0]), SerializeItems(items[1..]);
    assert SerializeItems(items) == a + ", " + b;
    Regroup(a, ", ", b, "]", rest);
    assert (b + "]" + rest)[0] == b[0];
  }

  /** Regrouping `a + sep + b + close + rest` around its first part. */
  lemma Regroup(a: string, sep: string, b: string, close: string, rest: string)
    ensures a + sep + b + close + rest == a + (sep + (b + close + rest))
  {
  }

  lemma LastElement(v: Value, rest: string)
    requires ParseValue(Serialize(v) + ("]" + rest)) == Some((v, "]" + rest))
    ensures ParseElements(Serialize(v) + ("]" + rest)) == Some(([v], rest))
  {
    assert ("]" + rest)[1..] == rest;
  }

  lemma NextElement(v: Value, more: string, tail: seq<Value>, rest: string)
    requires ParseValue(Serialize(v) + (", " + more)) == Some((v, ", " + more))
    requires more != [] && !IsWs(more[0])
    requires ParseElements(more) == Some((tail, rest))
    ensures ParseElements(Serialize(v) + (", " + more)) == Some(([v] + tail, rest))
  {
    SkipComma(more);
    assert ParseMoreElements(v, ", " + more) == Some(([v] + tail, rest));
  }

  /** A comma and a space before the next element or member are skipped. */
  lemma SkipComma(more: string)
    requires more != [] && !IsWs(more[0])
    ensures SkipWs(", " + more) == ", " + more
    ensures SkipWs((", " + more)[1..]) == more
  {
    assert (", " + more)[1..] == " " + more;
  }

  lemma {:induction false} ParseSerializeMembers(ms: seq<Member>, rest: string)
    requires ms != []
    ensures ParseMembers(SerializeMembers(ms) + "}" + rest) == Some((ms, rest))
  {
    if |ms| == 1 {
      LastMemberText(ms, rest);
      ParseSerialize(ms[0].val, "}" + rest);
      ParseMemberText(ms[0], "}" + rest);
      LastMember(ms[0], rest);
      assert ms == [ms[0]];
    } else {
      MembersText(ms, rest);
      var more := SerializeMembers(ms[1..]) + "}" + rest;
      ParseSerialize(ms[0].val, ", " + more);
      ParseSerializeMembers(ms[1..], rest);
      ParseMemberText(ms[0], ", " + more);
      NextMember(ms[0], more, ms[1..], rest);
      assert [ms[0]] + ms[1..] == ms;
    }
  }

  /** The text of a one-member object body. */
  lemma LastMemberText(ms: seq<Member>, rest: string)
    requires |ms| == 1
    ensures SerializeMembers(ms) + "}" + rest == SerializeMember(ms[0]) + ("}" + rest)
  {
  }

  /** The text of several members, split after the first member. */
  lemma MembersText(ms: seq<Member>, rest: string)
    requires |ms| > 1
    ensures var more := SerializeMembers(ms[1..]) + "}" + rest;
      SerializeMembers(ms) + "}" + rest == SerializeMember(ms[0]) + (", " + more)
      && !IsWs(more[0])
  {
    var a, b := SerializeMember(ms[0]), SerializeMembers(ms[1..]);
    assert SerializeMembers(ms) == a + ", " + b;
    Regroup(a, ", ", b, "}", rest);
    assert (b + "}" + rest)[0] == b[0];
  }

  lemma LastMember(m: Member, rest: string)
    ensures ParseMoreMembers(m, "}" + rest) == Some(([m], rest))
  {
    assert ("}" + rest)[1..] == rest;
  }

  lemma NextMember(m: Member, more: string, tail: seq<Member>, rest: string)
    requires more != [] && !IsWs(more[0])
    requires ParseMembers(more) == Some((tail, rest))
    ensures ParseMoreMembers(m, ", " + more) == Some(([m] + tail, rest))
  {
    SkipComma(more);
  }

  /** A serialized member reads back as its key and value, leaving what follows the value. */
  lemma ParseMemberText(m: Member, after: string)
    requires ParseValue(Serialize(m.val) + after) == Some((m.val, after))
    ensures ParseMembers(SerializeMember(m) + after) == ParseMoreMembers(m, after)
  {
    var valueText := Serialize(m.val) + after;
    var afterKey := ": " + valueText;
    MemberText(m, after);
    ParseEscaped(m.key, afterKey);
    MemberValue(m, after);
  }

  lemma MemberText(m: Member, after: string)
    ensures (SerializeMember(m) + after)[1..] == Escape(m.key) + "\"" + (": " + (Serialize(m.val) + after))
    ensures (SerializeMember(m) + after)[0] == '"'
  {
  }

  lemma MemberValue(m: Member, after: string)
    requires ParseValue(Serialize(m.val) + after) == Some((m.val, after))
    ensures ParseMemberValue(m.key, ": " + (Serialize(m.val) + after)) == ParseMoreMembers(m, after)
  {
    var valueText := Serialize(m.val) + after;
    var t := ": " + valueText;
    assert SkipWs(t) == t by { assert t[0] == ':'; }
    assert t[1..] == " " + valueText;
    assert SkipWs(" " + valueText) == valueText by {
      assert (" " + valueText)[1..] == valueText;
      assert valueText[0] == Serialize(m.val)[0];
    }
  }

  lemma DigitSpanOf(d: string, rest: string)
    requires AllDigits(d)
    requires rest == [] || !IsDigit(rest[0])
    ensures DigitSpan(d + rest) == |d|
  {
    if d != [] {
      assert (d + rest)[1..] == d[1..] + rest;
      DigitSpanOf(d[1..], rest);
    }
  }

  lemma ParseSerializeNum(n: int, rest: string)
    requires Delimited(rest)
    ensures ParseValue(Serialize(Num(n)) + rest) == Some((Num(n), rest))
  {
    var s := IntToString(n) + rest;
    assert s[0] == '-' || IsDigit(s[0]);
    ParseNumberOf(n, rest);
  }

  lemma ParseNumberOf(n: int, rest: string)
    requires Delimited(rest)
    ensures ParseNumber(IntToString(n) + rest) == Some((Num(n), rest))
  {
    var s := IntToString(n) + rest;
    var mag: nat := if n < 0 then -n else n;
    if n < 0 {
      assert s[1..] == NatToString(mag) + rest;
    }
    ParseMagnitudeOf(mag, n < 0, rest);
  }

  lemma ParseMagnitudeOf(mag: nat, neg: bool, rest: string)
    requires Delimited(rest)
    ensures ParseMagnitude(NatToString(mag) + rest, neg) == Some((Num(if neg then -(mag as int) else mag), rest))
  {
    var d := NatToString(mag);
    var body := d + rest;
    DigitSpanOf(d, rest);
    assert body[..|d|] == d && body[|d|..] == rest;
    NatToStringValue(mag);
  }

  /** A string literal's body, as `Escape` writes it, reads back as the string. */
  lemma {:induction false} ParseEscaped(str: string, rest: string)
    ensures ParseStringBody(Escape(str) + "\"" + rest) == Some((str, rest))
  {
    if str == [] {
      assert Escape(str) + "\"" + rest == "\"" + rest;
    } else {
      var after := Escape(str[1..]) + "\"" + rest;
      assert Escape(str) + "\"" + rest == EscapeChar(str[0]) + after;
      ParseEscaped(str[1..], rest);
      ParseEscapedChar(str[0], after);
      assert [str[0]] + str[1..] == str;
    }
  }

  /** Reading one escaped character puts it in front of what the rest of the literal reads as. */
  lemma ParseEscapedChar(c: char, after: string)
    ensures ParseStringBody(EscapeChar(c) + after) ==
      match ParseStringBody(after)
      case None => None
      case Some((str, rest)) => Some(([c] + str, rest))
  {
    var s := EscapeChar(c) + after;
    if EscapeChar(c) == [c] {
      assert s[0] == c && s[1..] == after;
    } else {
      assert s[0] == '\\';
      assert s[1..] == EscapeChar(c)[1..] + after;
      ParseEscapeChar(c, after);
    }
  }

  lemma Hex4Value(n: nat, rest: string)
    requires n < 0x10000
    ensures ReadHex4(Hex4(n) + rest) == Some(n)
  {
    var s := Hex4(n) + rest;
    var d0, d1, d2, d3 := n / 0x1000, n / 0x100 % 16, n / 16 % 16, n % 16;
    assert s[0] == HexChar(d0) && s[1] == HexChar(d1) && s[2] == HexChar(d2) && s[3] == HexChar(d3);
    assert HexValue(s[0]) == d0 && HexValue(s[1]) == d1 && HexValue(s[2]) == d2 && HexValue(s[3]) == d3;
    Hex4Digits(n);
  }

  /** A code unit is the sum of its four hex digits' place values. */
  lemma Hex4Digits(n: nat)
    requires n < 0x10000
    ensures n == (n / 0x1000) * 0x1000 + (n / 0x100 % 16) * 0x100 + (n / 16 % 16) * 16 + n % 16
  {
    var q1 := n / 16;
    var q2 := q1 / 16;
    var q3 := q2 / 16;
    assert n == q1 * 16 + n % 16;
    assert q1 == q2 * 16 + q1 % 16;
    assert q2 == q3 * 16 + q2 % 16;
    assert n / 0x100 == q2;
    assert n / 0x1000 == q3;
  }

  /** An escape written by `EscapeChar` reads back as its character, whatever follows it. */
  lemma ParseEscapeChar(c: char, rest: string)
    requires EscapeChar(c) != [c]
    ensures ParseEscape(EscapeChar(c)[1..] + rest) == Some((c, rest))
  {
    if c == '"' || c == '\\' || c == '\n' || c == '\r' || c == '\t' || c == '\U{8}' || c == '\U{C}' {
      ParseShortEscape(c, rest);
    } else if c as int < 0x10000 {
      assert EscapeChar(c) == "\\u" + Hex4(c as int);
      ParseBmpEscape(c, rest);
    } else {
      ParseAstralEscape(c, rest);
    }
  }

  lemma ParseShortEscape(c: char, rest: string)
    requires c == '"' || c == '\\' || c == '\n' || c == '\r' || c == '\t' || c == '\U{8}' || c == '\U{C}'
    ensures ParseEscape(EscapeChar(c)[1..] + rest) == Some((c, rest))
  {
    var e := EscapeChar(c)[1..] + rest;
    assert |EscapeChar(c)| == 2;
    assert e[1..] == rest;
  }

  lemma ParseBmpEscape(c: char, rest: string)
    requires !IsPrintableAscii(c) && c as int < 0x10000
    ensures ParseEscape("u" + Hex4(c as int) + rest) == Some((c, rest))
  {
    var e := "u" + Hex4(c as int) + rest;
    assert e[1..] == Hex4(c as int) + rest;
    Hex4Value(c as int, rest);
    assert e[5..] == rest;
  }

  lemma ParseAstralEscape(c: char, rest: string)
    requires c as int >= 0x10000
    ensures ParseEscape(EscapeChar(c)[1..] + rest) == Some((c, rest))
  {
    var n := c as int - 0x10000;
    var hi := 0xD800 + n / 0x400;
    var lo := 0xDC00 + n % 0x400;
    assert EscapeChar(c) == "\\u" + Hex4(hi) + "\\u" + Hex4(lo);
    assert EscapeChar(c)[1..] + rest == "u" + Hex4(hi) + "\\u" + Hex4(lo) + rest;
    ParseSurrogatePair(hi, lo, rest);
    assert 0x10000 + (hi - 0xD800) * 0x400 + (lo - 0xDC00) == c as int;
  }

  /** A high and a low surrogate escape read back as the character they encode. */
  lemma ParseSurrogatePair(hi: nat, lo: nat, rest: string)
    requires IsHighSurrogate(hi) && IsLowSurrogate(lo)
    ensures ParseEscape("u" + Hex4(hi) + "\\u" + Hex4(lo) + rest) ==
      Some(((0x10000 + (hi - 0xD800) * 0x400 + (lo - 0xDC00)) as char, rest))
  {
    var e := "u" + Hex4(hi) + "\\u" + Hex4(lo) + rest;
    assert e[1..] == Hex4(hi) + ("\\u" + Hex4(lo) + rest);
    Hex4Value(hi, "\\u" + Hex4(lo) + rest);
    assert e[5] == '\\' && e[6] == 'u';
    assert e[7..] == Hex4(lo) + rest;
    Hex4Value(lo, rest);
    assert e[11..] == rest;
  }

  // ---------------------------------------------------------------------
  // Python's view of parsed values
  // ---------------------------------------------------------------------

  /** Python truthiness (`if v:`). */
  predicate Truthy(v: Value) {
    match v
    case Null => false
    case Bool(b) => b
    case Num(n) => n != 0
    case Str(s) => s != []
    case Arr(items) => items != []
    case Obj(ms) => ms != []
  }

  /** The keys of an object, each once, in the order they first appear (the order of a Python dict). */
  function DistinctKeys(ms: seq<Member>): (ks: seq<string>)
    ensures forall k :: k in ks <==> exists i :: 0 <= i < |ms| && ms[i].key == k
    ensures |ks| <= |ms|
    ensures ms != [] ==> ks != []
  {
    if ms == [] then []
    else
      var init := DistinctKeys(ms[..|ms| - 1]);
      var k := ms[|ms| - 1].key;
      assert forall i :: 0 <= i < |ms| - 1 ==> ms[..|ms| - 1][i] == ms[i];
      if k in init then init else init + [k]
  }

  /**
   * The elements `for x in v` visits: the items of an array, the keys of an
   * object, the one-character strings of a string.  Python raises TypeError
   * for null, booleans and numbers (`None`).
   */
  function Iterate(v: Value): (r: Option<seq<Value>>)
    ensures v.Arr? ==> r == Some(v.items)
    ensures r.Some? <==> v.Arr? || v.Obj? || v.Str?
    ensures r.Some? ==> (r.value == [] <==> !Truthy(v))
  {
    match v
    case Arr(items) => Some(items)
    case Obj(ms) =>
      var ks := DistinctKeys(ms);
      Some(seq(|ks|, i requires 0 <= i < |ks| => Str(ks[i])))
    case Str(s) => Some(seq(|s|, i requires 0 <= i < |s| => Str([s[i]])))
    case _ => None
  }

  /** The dictionary an object denotes: a later member wins over an earlier one with the same key. */
  function ObjToMap(ms: seq<Member>): (m: map<string, Value>)
    ensures forall k :: k in m <==> exists i :: 0 <= i < |ms| && ms[i].key == k
    ensures ms != [] ==> m[ms[|ms| - 1].key] == ms[|ms| - 1].val
  {
    if ms == [] then map[]
    else
      assert forall i :: 0 <= i < |ms| - 1 ==> ms[..|ms| - 1][i] == ms[i];
      ObjToMap(ms[..|ms| - 1])[ms[|ms| - 1].key := ms[|ms| - 1].val]
  }

  /** `v.get(key)` on a dict: the member's value, or None when the key is absent. */
  function DictGet(ms: seq<Member>, key: string): (r: Option<Value>)
    ensures r.Some? <==> key in ObjToMap(ms)
    ensures r.Some? ==> r.value == ObjToMap(ms)[key]
  {
    var m := ObjToMap(ms);
    if key in m then Some(m[key]) else None
  }

  /** With no later member of the same key, `get` finds member `j`'s value. */
  lemma {:induction false} DictGetAt(ms: seq<Member>, j: nat)
    requires j < |ms|
    requires forall i :: j < i < |ms| ==> ms[i].key != ms[j].key
    ensures DictGet(ms, ms[j].key) == Some(ms[j].val)
  {
    if j < |ms| - 1 {
      var init := ms[..|ms| - 1];
      assert init[j] == ms[j];
      assert forall i :: j < i < |init| ==> init[i] == ms[i];
      DictGetAt(init, j);
    }
  }

  /** No two members of the object share a key. */
  predicate DistinctMemberKeys(ms: seq<Member>) {
    forall i, j :: 0 <= i < j < |ms| ==> ms[i].key != ms[j].key
  }

  /** Each key `DistinctKeys` lists occurs in it once. */
  lemma {:induction false} DistinctKeysAreDistinct(ms: seq<Member>)
    ensures forall i, j :: 0 <= i < j < |DistinctKeys(ms)| ==> DistinctKeys(ms)[i] != DistinctKeys(ms)[j]
  {
    if ms != [] {
      DistinctKeysAreDistinct(ms[..|ms| - 1]);
    }
  }

  /**
   * The members of the dict `json.loads` builds from an object: one member
   * per key, at the place the key first appears, holding the last value
   * given for it.
   */
  function Collapse(ms: seq<Member>): (r: seq<Member>)
    ensures DistinctMemberKeys(r)
    ensures |r| == |DistinctKeys(ms)| && forall i :: 0 <= i < |r| ==> r[i].key == DistinctKeys(ms)[i]
    ensures ObjToMap(r) == ObjToMap(ms)
  {
    var ks := DistinctKeys(ms);
    var m := ObjToMap(ms);
    DistinctKeysInDict(ms);
    assert forall i :: 0 <= i < |ks| ==> ks[i] in m;
    var r := seq(|ks|, i requires 0 <= i < |ks| => Member(ks[i], m[ks[i]]));
    DistinctKeysAreDistinct(ms);
    CollapsedDict(ms, r);
    r
  }

  /** Every key `DistinctKeys` lists is a key of the dict. */
  lemma DistinctKeysInDict(ms: seq<Member>)
    ensures forall i :: 0 <= i < |DistinctKeys(ms)| ==> DistinctKeys(ms)[i] in ObjToMap(ms)
  {
    var ks := DistinctKeys(ms);
    forall i | 0 <= i < |ks| ensures ks[i] in ObjToMap(ms) {
      assert ks[i] in ks;
      var j :| 0 <= j < |ms| && ms[j].key == ks[i];
    }
  }

  /** Members listing each key of `ms` once, with its dict value, denote the same dict. */
  lemma CollapsedDict(ms: seq<Member>, r: seq<Member>)
    requires |r| == |DistinctKeys(ms)|
    requires forall i :: 0 <= i < |r| ==>
      r[i].key == DistinctKeys(ms)[i] && r[i].key in ObjToMap(ms) && r[i].val == ObjToMap(ms)[r[i].key]
    ensures ObjToMap(r) == ObjToMap(ms)
  {
    var ks, m, n := DistinctKeys(ms), ObjToMap(ms), ObjToMap(r);
    DistinctKeysAreDistinct(ms);
    assert n.Keys == m.Keys by {
      forall k | k in m ensures k in n {
        assert k in ks;
        var i :| 0 <= i < |ks| && ks[i] == k;
        assert r[i].key == k;
      }
    }
    forall k | k in n
      ensures n[k] == m[k]
    {
      var i :| 0 <= i < |r| && r[i].key == k;
      DictGetAt(r, i);
    }
  }

  /**
   * The value as `json.loads` holds it: every object, at every depth,
   * collapsed to one member per key.  `json.dumps(json.loads(t))` writes the
   * text of `Dedup` of what `t` parses to.
   */
  function Dedup(v: Value): (d: Value)
    ensures !v.Arr? && !v.Obj? ==> d == v
    ensures v.Arr? ==> d.Arr? && |d.items| == |v.items| && forall i :: 0 <= i < |v.items| ==> d.items[i] == Dedup(v.items[i])
    ensures v.Obj? ==> d.Obj? && DistinctMemberKeys(d.members)
    decreases v
  {
    match v
    case Arr(items) => Arr(seq(|items|, i requires 0 <= i < |items| => Dedup(items[i])))
    case Obj(ms) => Obj(Collapse(seq(|ms|, i requires 0 <= i < |ms| => Member(ms[i].key, Dedup(ms[i].val)))))
    case _ => v
  }

  /** An object after `Dedup` denotes the same keys, each with `Dedup` of the value the original dict holds for it. */
  lemma DedupKeepsDict(v: Value)
    requires v.Obj?
    ensures Dedup(v).Obj?
    ensures ObjToMap(Dedup(v).members).Keys == ObjToMap(v.members).Keys
    ensures forall k :: k in ObjToMap(v.members) ==> ObjToMap(Dedup(v).members)[k] == Dedup(ObjToMap(v.members)[k])
  {
    var ms := v.members;
    var ns := seq(|ms|, i requires 0 <= i < |ms| => Member(ms[i].key, Dedup(ms[i].val)));
    assert Dedup(v) == Obj(Collapse(ns));
    DedupValuesDict(ms, ns);
  }

  /** Members whose values are `Dedup` of those of `ms`, key for key, denote `ObjToMap(ms)` with `Dedup` applied to each value. */
  lemma {:induction false} DedupValuesDict(ms: seq<Member>, ns: seq<Member>)
    requires |ns| == |ms| && forall i :: 0 <= i < |ms| ==> ns[i] == Member(ms[i].key, Dedup(ms[i].val))
    ensures ObjToMap(ns).Keys == ObjToMap(ms).Keys
    ensures forall k :: k in ObjToMap(ms) ==> ObjToMap(ns)[k] == Dedup(ObjToMap(ms)[k])
  {
    if ms != [] {
      var n := |ms| - 1;
      var p, q := ms[..n], ns[..n];
      assert forall i :: 0 <= i < n ==> p[i] == ms[i] && q[i] == ns[i];
      DedupValuesDict(p, q);
      assert ObjToMap(ms) == ObjToMap(p)[ms[n].key := ms[n].val];
      assert ObjToMap(ns) == ObjToMap(q)[ns[n].key := ns[n].val];
    }
  }

  /** `json.loads('{"a": 1, "a": 2}')` is the dict `{"a": 2}`: the key keeps its place and takes the last value. */
  lemma DuplicateKeyTakesLastValue()
    ensures Dedup(Obj([Member("a", Num(1)), Member("a", Num(2))])) == Obj([Member("a", Num(2))])
  {
    var ms := [Member("a", Num(1)), Member("a", Num(2))];
    var mapped := seq(|ms|, i requires 0 <= i < |ms| => Member(ms[i].key, Dedup(ms[i].val)));
    assert mapped == ms;
    assert ms[..1] == [Member("a", Num(1))];
    assert DistinctKeys(ms) == ["a"];
    assert ObjToMap(ms)["a"] == Num(2);
  }

  /** A list of strings as a JSON array of strings. */
  function StrList(l: seq<string>): (v: Value)
    ensures v.Arr? && |v.items| == |l|
    ensures forall i :: 0 <= i < |l| ==> v.items[i] == Str(l[i])
  {
    Arr(seq(|l|, i requires 0 <= i < |l| => Str(l[i])))
  }
}
