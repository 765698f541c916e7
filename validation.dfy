/**
 * `require_json_fields` (utils/validation.py): the list of required
 * fields a request body lacks, and the response that list decides.  The
 * body is the decoded JSON; Python's `in` and indexing are modelled on
 * every kind of body, not only on objects.
 */
module Validation {
  import opened Wrappers
  import opened Text
  import opened Json

  /** Values that compare equal to one of `None`, `""` or `[]`. */
  predicate Blank(v: Value) {
    v == Null || v == Str("") || v == Arr([])
  }

  /** `needle` occurs in `haystack` starting at position `i`. */
  predicate OccursAt(needle: string, haystack: string, i: int) {
    0 <= i <= |haystack| - |needle| && haystack[i..i + |needle|] == needle
  }

  /** `needle in haystack` for strings: a contiguous occurrence. */
  predicate Substring(needle: string, haystack: string) {
    exists i :: 0 <= i <= |haystack| && OccursAt(needle, haystack, i)
  }

  /**
   * The test `f not in data or data[f] in (None, "", [])` for one field:
   * Some(true) when the field is missing, Some(false) when present, None
   * when Python raises TypeError (a number, bool or null body, or indexing
   * a list or string by name).
   */
  function FieldMissing(data: Value, f: string): (r: Option<bool>)
    ensures data.Obj? ==> r.Some?
    ensures data.Obj? ==> (r.value <==> DictGet(data.members, f).None? || Blank(DictGet(data.members, f).value))
    ensures data.Arr? ==> (r == Some(true) <==> Str(f) !in data.items) && (r.None? <==> Str(f) in data.items)
    ensures data.Str? ==> (r == Some(true) <==> !Substring(f, data.s)) && (r.None? <==> Substring(f, data.s))
    ensures data.Null? || data.Bool? || data.Num? ==> r.None?
  {
    match data
    case Obj(ms) =>
      var v := DictGet(ms, f);
      if v.None? then Some(true) else Some(Blank(v.value))
    case Arr(items) => if Str(f) !in items then Some(true) else None
    case Str(s) => if !Substring(f, s) then Some(true) else None
    case _ => None
  }

  /** Zero and False are not blank: a field holding either is present. */
  lemma ZeroAndFalseArePresent(ms: seq<Member>, f: string)
    requires DictGet(ms, f) == Some(Num(0)) || DictGet(ms, f) == Some(Bool(false))
    ensures FieldMissing(Obj(ms), f) == Some(false)
  {
  }

  /** `a` is `b` with some elements dropped, the rest in their order. */
  predicate Subsequence<T(==)>(a: seq<T>, b: seq<T>)
    decreases |b|
  {
    if a == [] then true
    else if b == [] then false
    else (a[0] == b[0] && Subsequence(a[1..], b[1..])) || Subsequence(a, b[1..])
  }

  /** `[f for f in fields if <missing>]`, evaluated left to right; None when a test raises. */
  function MissingFields(fields: seq<string>, data: Value): (r: Option<seq<string>>)
    ensures r.None? <==> exists i :: 0 <= i < |fields| && FieldMissing(data, fields[i]).None?
    ensures r.Some? ==> forall x :: x in r.value <==> x in fields && FieldMissing(data, x) == Some(true)
    ensures r.Some? ==> |r.value| <= |fields|
  {
    if fields == [] then Some([])
    else
      match FieldMissing(data, fields[0])
      case None => None
      case Some(missing) =>
        match MissingFields(fields[1..], data)
        case None => None
        case Some(rest) => Some(if missing then [fields[0]] + rest else rest)
  }

  /** The missing list keeps the declared order of the fields. */
  lemma {:induction false} MissingFieldsInOrder(fields: seq<string>, data: Value)
    requires MissingFields(fields, data).Some?
    ensures Subsequence(MissingFields(fields, data).value, fields)
  {
    if fields != [] {
      MissingFieldsInOrder(fields[1..], data);
      var rest := MissingFields(fields[1..], data).value;
      if FieldMissing(data, fields[0]) == Some(true) {
        assert MissingFields(fields, data).value == [fields[0]] + rest;
        assert ([fields[0]] + rest)[1..] == rest;
      } else {
        SubsequenceDropHead(rest, fields);
      }
    }
  }

  /** A subsequence of the tail is a subsequence of the whole sequence. */
  lemma SubsequenceDropHead(a: seq<string>, b: seq<string>)
    requires b != [] && Subsequence(a, b[1..])
    ensures Subsequence(a, b)
  {
  }

  /** On an object body nothing raises, and the missing fields are exactly the absent or blank ones. */
  lemma ObjectBodyMissing(fields: seq<string>, ms: seq<Member>)
    ensures MissingFields(fields, Obj(ms)).Some?
    ensures forall x :: x in MissingFields(fields, Obj(ms)).value <==>
      x in fields && (DictGet(ms, x).None? || Blank(DictGet(ms, x).value))
  {
  }

  /**
   * The wrapped handler's result, a 400 with an error message, the 400 the
   * framework raises when a body declared as JSON does not decode, or the
   * TypeError the field test raised.
   */
  datatype Response<R> = Called(result: R) | BadRequest(error: string) | Undecodable | Raised

  /**
   * `require_json_fields(*fields)(func)(...)`: `result` is what `func`
   * returns when it is called.  `isJson` is `request.is_json`, a test of
   * the declared content type only; `body` is what `request.get_json()`
   * decodes, None when the text is not JSON.  A request not declared as
   * JSON is refused first, whatever its body.
   */
  function RequireJsonFields<R>(fields: seq<string>, isJson: bool, body: Option<Value>, result: R): (r: Response<R>)
    ensures !isJson ==> r == BadRequest("Invalid JSON")
    ensures isJson && body.None? ==> r == Undecodable
    ensures r.Called? <==> isJson && body.Some? && MissingFields(fields, body.value) == Some([])
    ensures r.Called? ==> r.result == result
    ensures r.Raised? <==> isJson && body.Some? && MissingFields(fields, body.value).None?
    ensures r.BadRequest? && isJson ==>
      var missing := MissingFields(fields, body.value);
      body.Some? && missing.Some? && missing.value != [] && r.error == "Missing required fields: " + Join(missing.value, ", ")
  {
    if !isJson then BadRequest("Invalid JSON")
    else if body.None? then Undecodable
    else
      match MissingFields(fields, body.value)
      case None => Raised
      case Some(missing) =>
        if missing != [] then BadRequest("Missing required fields: " + Join(missing, ", "))
        else Called(result)
  }
}
