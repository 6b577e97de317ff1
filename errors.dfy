/** Go error values as the controller produces and inspects them: the
    Kubernetes API errors, strconv's NumError, errors from library
    routines, errors.New and pkg/errors' Wrap. */
module Errors {

  datatype Option<+T> = None | Some(value: T)

  datatype Result<+T> = Ok(value: T) | Err(error: Error)

  /** The reason an API server call failed (apierrors.IsNotFound and
      apierrors.IsAlreadyExists inspect it); every other failure of a call
      (time-out, conflict, throttling, server error) is a Fault. */
  datatype ApiReason = NotFound | AlreadyExists | Fault

  /** strconv.ErrSyntax and strconv.ErrRange. */
  datatype NumErr = ErrSyntax | ErrRange

  datatype Error =
    | ApiError(reason: ApiReason, text: string)
    | NumError(func: string, num: string, err: NumErr)
    | LibraryError(text: string)          // returned by time, crypto or x509 routines
    | Plain(text: string)                 // errors.New
    | Wrapped(context: string, cause: Error)  // errors.Wrap

  /** The escape strconv.Quote writes for one ASCII character: a
      backslash before '"' and '\\', the C escapes of the control
      characters that have one, \xNN for the other control characters and
      DEL, and the character itself otherwise. */
  function EscapeChar(c: char): (r: string)
    ensures c != '"' && c != '\\' && ' ' <= c && c != '\U{7F}' ==> r == [c]
    ensures c == '"' || c == '\\' ==> r == ['\\', c]
    ensures |r| >= 1
  {
    if c == '"' || c == '\\' then ['\\', c]
    else if c == '\U{7}' then "\\a"
    else if c == '\U{8}' then "\\b"
    else if c == '\U{C}' then "\\f"
    else if c == '\n' then "\\n"
    else if c == '\r' then "\\r"
    else if c == '\t' then "\\t"
    else if c == '\U{B}' then "\\v"
    else if c < ' ' || c == '\U{7F}' then "\\x" + [HexDigit(c as int / 16), HexDigit(c as int % 16)]
    else [c]
  }

  function HexDigit(d: int): char
    requires 0 <= d < 16
  {
    if d < 10 then ('0' as int + d) as char else ('a' as int + d - 10) as char
  }

  /** Text strconv.Quote copies as it is (among ASCII characters). */
  predicate Unescaped(s: string)
  {
    forall i :: 0 <= i < |s| ==> s[i] != '"' && s[i] != '\\' && ' ' <= s[i] && s[i] != '\U{7F}'
  }

  /** The body of strconv.Quote(s), without the surrounding quotes. */
  function Escaped(s: string): (r: string)
    ensures |r| >= |s|
    ensures Unescaped(s) ==> r == s
  {
    if s == [] then [] else EscapeChar(s[0]) + Escaped(s[1..])
  }

  /** err.Error(): pkg/errors prints "context: cause", strconv prints
      `strconv.Atoi: parsing "x": invalid syntax` with the input quoted
      by strconv.Quote. */
  function Text(e: Error): string
  {
    match e
    case ApiError(_, t) => t
    case NumError(f, num, k) =>
      "strconv." + f + ": parsing \"" + Escaped(num) + "\": "
      + (if k == ErrSyntax then "invalid syntax" else "value out of range")
    case LibraryError(t) => t
    case Plain(t) => t
    case Wrapped(c, cause) => c + ": " + Text(cause)
  }

  /** Quoting works character by character. */
  lemma {:induction false} EscapedAppend(a: string, b: string)
    ensures Escaped(a + b) == Escaped(a) + Escaped(b)
  {
    if a == [] {
      assert a + b == b;
    } else {
      assert (a + b)[0] == a[0] && (a + b)[1..] == a[1..] + b;
      EscapedAppend(a[1..], b);
    }
  }

  /** A quote inside printable text is escaped in the message, and the
      rest is left alone: the day count `a"b` of the validity `a"bd`
      prints as `parsing "a\"b"`. */
  lemma EscapedQuote(p: string, q: string)
    requires Unescaped(p) && Unescaped(q)
    ensures Escaped(p + ['"'] + q) == p + ['\\', '"'] + q
  {
    EscapedAppend(p + ['"'], q);
    EscapedAppend(p, ['"']);
    assert Escaped(['"']) == ['\\', '"'] + Escaped([]);
  }

  /** apierrors.IsNotFound on an error returned by a client call. */
  predicate IsNotFound(e: Error)
  {
    e.ApiError? && e.reason == NotFound
  }

  /** errors.Wrap(err, context) applied to the outcome of a call: a nil
      error stays nil. */
  function WrapIf(context: string, err: Option<Error>): (r: Option<Error>)
    ensures r.None? <==> err.None?
    ensures err.Some? ==> Text(r.value) == context + ": " + Text(err.value)
  {
    match err
    case None => None
    case Some(e) => Some(Wrapped(context, e))
  }
}
