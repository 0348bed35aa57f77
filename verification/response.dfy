/**
 * Decoding of the API's response envelope, the decision whether a response
 * is a failure, and how such a failure renders and matches.
 */
module Response {
  import opened Wrappers
  import Decimal
  import HttpStatus

  /** The envelope every API response decodes into. */
  datatype ResponseBody = ResponseBody(success: bool, message: string, backtrace: seq<string>)

  /** The envelope before anything is decoded into it: every field at its zero value. */
  const EMPTY_BODY := ResponseBody(false, "", [])

  /** Go `error` values as far as this layer makes, wraps or inspects them. */
  datatype Failure =
    | Throttled                            // the ErrThrottled sentinel, made once by errors.New
    | Wrapped(context: string, cause: Failure)  // fmt.Errorf("<context>: %w", cause)
    | Api(response: ResponseError)         // a responseError
    | Foreign(text: string)                // an error made outside this layer (the JSON decoder, say)
  {
    /** The error's text, as its Error method returns it. */
    function Error(): (s: string)
      ensures Throttled? ==> s == "throttled"
      ensures Wrapped? ==> |s| >= |context| + 2 && s[..|context| + 2] == context + ": " && s[|context| + 2..] == cause.Error()
      ensures Api? ==> s == response.Error()
      ensures Foreign? ==> s == text
    {
      match this
      case Throttled => "throttled"
      case Wrapped(context, cause) => context + ": " + cause.Error()
      case Api(response) => response.Error()
      case Foreign(text) => text
    }

    /** The error this one wraps, as errors.Unwrap finds it. */
    function Unwrap(): (r: Option<Failure>)
      ensures r.Some? <==> Wrapped?
      ensures Wrapped? ==> r.value == cause
    {
      if Wrapped? then Some(cause) else None
    }
  }

  /** A failed API call: the HTTP status and the envelope the server sent. */
  datatype ResponseError = ResponseError(statusCode: int, body: ResponseBody) {

    /** "HTTP <code> <reason phrase>", then ": <message>" when the envelope has one. */
    function Error(): (s: string)
      ensures |s| >= 7 && s[..5] == "HTTP "
      ensures body.message != "" ==> |s| >= |body.message| + 2 && s[|s| - |body.message| - 2..] == ": " + body.message
      ensures body.message == "" ==> |s| >= |HttpStatus.Text(statusCode)| && s[|s| - |HttpStatus.Text(statusCode)|..] == HttpStatus.Text(statusCode)
    {
      "HTTP " + Decimal.IntToString(statusCode) + " " + HttpStatus.Text(statusCode) + MessageSuffix(body.message)
    }

    /** Whether this error is `target` for errors.Is: only the throttling sentinel, and only for 429. */
    function Is(target: Failure): (r: bool)
      ensures r <==> target == Throttled && statusCode == 429
    {
      match target
      case Throttled => statusCode == 429
      case _ => false
    }
  }

  /** What the JSON decoder leaves behind: the envelope as far as it got, and its error if it failed. */
  datatype Decoded = Decoded(partial: ResponseBody, err: Option<Failure>)

  /**
   * The envelope of a response and the parse error, if any. The decoder
   * itself is outside the model: its outcome is the argument.
   */
  function ParseBody(decoded: Decoded): (r: (ResponseBody, Option<Failure>))
    ensures r.0 == decoded.partial
    ensures r.1.None? <==> decoded.err.None?
    ensures r.1.Some? ==> r.1.value.Error() == "parse body: " + decoded.err.value.Error()
    ensures r.1.Some? ==> r.1.value.Unwrap() == decoded.err
  {
    match decoded.err
    case None => (decoded.partial, None)
    case Some(e) => (decoded.partial, Some(Wrapped("parse body", e)))
  }

  /** The error an API response stands for, or None when the call succeeded. */
  function GetResponseError(statusCode: int, rb: ResponseBody): (r: Option<ResponseError>)
    ensures statusCode < 400 ==> r == None
    ensures statusCode >= 400 && rb.success ==> r == None
    ensures statusCode >= 400 && !rb.success ==> r.Some? && r.value.statusCode == statusCode && r.value.body == rb
  {
    if statusCode < 400 then None
    else if rb.success then None
    else Some(ResponseError(statusCode, rb))
  }

  // ----- Properties of classification -----

  /** A response is a failure exactly when its status is 400 or more and the envelope does not claim success. */
  lemma FailureExactly(statusCode: int, rb: ResponseBody)
    ensures GetResponseError(statusCode, rb).Some? <==> statusCode >= 400 && !rb.success
  {
  }

  /** A classified failure matches ErrThrottled exactly when the status was 429. */
  lemma ThrottledExactly(statusCode: int, rb: ResponseBody)
    ensures (GetResponseError(statusCode, rb).Some? && GetResponseError(statusCode, rb).value.Is(Throttled))
            <==> statusCode == 429 && !rb.success
  {
  }

  // ----- Properties of matching -----

  /** Matching looks at the status code only: the envelope never changes the answer. */
  lemma IsIgnoresBody(statusCode: int, b1: ResponseBody, b2: ResponseBody, target: Failure)
    ensures ResponseError(statusCode, b1).Is(target) == ResponseError(statusCode, b2).Is(target)
  {
  }

  /** Nothing but the sentinel is matched, not even another error whose text is "throttled". */
  lemma IsOnlySentinel(e: ResponseError, target: Failure)
    requires target != Throttled
    ensures !e.Is(target)
  {
  }

  /** A 429 error with the message "throttled" is ErrThrottled. */
  lemma ThrottledWithMessage()
    ensures ResponseError(429, ResponseBody(false, "throttled", [])).Is(Throttled)
    ensures !ResponseError(429, ResponseBody(false, "throttled", [])).Is(Foreign("throttled"))
  {
  }

  // ----- Reading a rendered error back -----

  /** The index of the first `c` in `s`, or |s| when there is none. */
  function FirstIndex(s: string, c: char): (i: nat)
    ensures i <= |s|
    ensures forall k :: 0 <= k < i ==> s[k] != c
    ensures i < |s| ==> s[i] == c
    decreases |s|
  {
    if s == [] then 0 else if s[0] == c then 0 else 1 + FirstIndex(s[1..], c)
  }

  lemma FirstIndexAfter(a: string, c: char, b: string)
    requires c !in a
    ensures FirstIndex(a + [c] + b, c) == |a|
  {
    var s := a + [c] + b;
    assert s[|a|] == c;
    assert forall k :: 0 <= k < |a| ==> s[k] == a[k] && s[k] != c;
  }

  /**
   * The status code and message an error text shows, read as Error writes
   * it: "HTTP ", a decimal code, a space, the code's reason phrase, then
   * nothing or ": " and the message. None for any other text.
   */
  function ReadError(s: string): Option<(int, string)> {
    if |s| < 5 || s[..5] != "HTTP " then None else ReadStatus(s[5..])
  }

  /** Reads "<code> " and what follows it. */
  function ReadStatus(rest: string): Option<(int, string)> {
    var space := FirstIndex(rest, ' ');
    if space == |rest| || !Decimal.IsIntString(rest[..space]) then None
    else ReadReason(Decimal.IntOf(rest[..space]), rest[space + 1..])
  }

  /** Reads the reason phrase of `code` and what follows it. */
  function ReadReason(code: int, tail: string): Option<(int, string)> {
    var phrase := HttpStatus.Text(code);
    if |tail| < |phrase| || tail[..|phrase|] != phrase then None
    else match ReadMessage(tail[|phrase|..])
      case None => None
      case Some(message) => Some((code, message))
  }

  /** Reads what follows the reason phrase: nothing, or ": " and the message. */
  function ReadMessage(after: string): Option<string> {
    if after == [] then Some("")
    else if |after| > 2 && after[..2] == ": " then Some(after[2..])
    else None
  }

  /** The part of the text Error appends for `message`: nothing for an empty one. */
  function MessageSuffix(message: string): string {
    if message != "" then ": " + message else ""
  }

  lemma ReadMessageSuffix(message: string)
    ensures ReadMessage(MessageSuffix(message)) == Some(message)
  {
    if message != "" {
      assert MessageSuffix(message)[..2] == ": ";
      assert MessageSuffix(message)[2..] == message;
    }
  }

  lemma ReadReasonOf(code: int, message: string)
    ensures ReadReason(code, HttpStatus.Text(code) + MessageSuffix(message)) == Some((code, message))
  {
    var phrase := HttpStatus.Text(code);
    var tail := phrase + MessageSuffix(message);
    assert tail[..|phrase|] == phrase;
    assert tail[|phrase|..] == MessageSuffix(message);
    ReadMessageSuffix(message);
  }

  /** Splitting at the first space finds a word that has none. */
  lemma SplitAtSpace(word: string, tail: string)
    requires ' ' !in word
    ensures FirstIndex(word + [' '] + tail, ' ') == |word|
    ensures (word + [' '] + tail)[..|word|] == word
    ensures (word + [' '] + tail)[|word| + 1..] == tail
  {
    FirstIndexAfter(word, ' ', tail);
  }

  lemma {:induction false} ReadStatusOf(code: int, tail: string)
    ensures ReadStatus(Decimal.IntToString(code) + [' '] + tail) == ReadReason(code, tail)
  {
    var digits := Decimal.IntToString(code);
    assert ' ' !in digits by {
      forall k | 0 <= k < |digits| ensures digits[k] != ' ' { }
    }
    SplitAtSpace(digits, tail);
    Decimal.IntRoundTrip(code);
  }

  /** An error's text tells its status code and its message. */
  lemma {:induction false} ErrorReadsBack(e: ResponseError)
    ensures ReadError(e.Error()) == Some((e.statusCode, e.body.message))
  {
    var rest := Decimal.IntToString(e.statusCode) + [' '] + (HttpStatus.Text(e.statusCode) + MessageSuffix(e.body.message));
    ErrorSplits(e, rest);
    assert ReadError(e.Error()) == ReadStatus(rest);
    ReadStatusOf(e.statusCode, HttpStatus.Text(e.statusCode) + MessageSuffix(e.body.message));
    ReadReasonOf(e.statusCode, e.body.message);
  }

  lemma ErrorSplits(e: ResponseError, rest: string)
    requires rest == Decimal.IntToString(e.statusCode) + [' '] + (HttpStatus.Text(e.statusCode) + MessageSuffix(e.body.message))
    ensures e.Error() == "HTTP " + rest
  {
  }

  // ----- The reader accepts nothing but error texts -----

  lemma ReadMessageExact(after: string, message: string)
    requires ReadMessage(after) == Some(message)
    ensures after == MessageSuffix(message)
  {
    if after != [] {
      assert after == after[..2] + after[2..];
    }
  }

  lemma ReadReasonExact(code: int, tail: string, c: int, m: string)
    requires ReadReason(code, tail) == Some((c, m))
    ensures c == code && tail == HttpStatus.Text(code) + MessageSuffix(m)
  {
    var phrase := HttpStatus.Text(code);
    ReadMessageExact(tail[|phrase|..], m);
    assert tail == tail[..|phrase|] + tail[|phrase|..];
  }

  lemma ReadStatusExact(rest: string, c: int, m: string)
    requires ReadStatus(rest) == Some((c, m))
    ensures rest == Decimal.IntToString(c) + [' '] + (HttpStatus.Text(c) + MessageSuffix(m))
  {
    var space := FirstIndex(rest, ' ');
    var digits, tail := rest[..space], rest[space + 1..];
    assert ReadStatus(rest) == ReadReason(Decimal.IntOf(digits), tail);
    Decimal.IntStringRoundTrip(digits);
    ReadReasonExact(Decimal.IntOf(digits), tail, c, m);
    assert rest == digits + [rest[space]] + tail;
  }

  /**
   * Whatever text the reader accepts as code `c` and message `m` is exactly
   * the text of an error with that code and any envelope with that message.
   */
  lemma {:induction false} ReadErrorExact(s: string, c: int, body: ResponseBody)
    requires ReadError(s) == Some((c, body.message))
    ensures s == ResponseError(c, body).Error()
  {
    ReadStatusExact(s[5..], c, body.message);
    ErrorSplits(ResponseError(c, body), s[5..]);
    assert s == s[..5] + s[5..];
  }

  /** Two errors with the same text have the same status code and message. */
  lemma ErrorInjective(e1: ResponseError, e2: ResponseError)
    requires e1.Error() == e2.Error()
    ensures e1.statusCode == e2.statusCode && e1.body.message == e2.body.message
  {
    ErrorReadsBack(e1);
    ErrorReadsBack(e2);
  }

  // ----- Renderings of particular errors -----

  /** An error's text assembled from its printed code, its reason phrase and its message suffix. */
  lemma ErrorFromParts(e: ResponseError, digits: string, phrase: string, suffix: string)
    requires digits == Decimal.IntToString(e.statusCode)
    requires phrase == HttpStatus.Text(e.statusCode)
    requires suffix == MessageSuffix(e.body.message)
    ensures e.Error() == "HTTP " + digits + " " + phrase + suffix
  {
  }

  lemma Code429()
    ensures Decimal.IntToString(429) == "429" && HttpStatus.Text(429) == "Too Many Requests"
  {
  }

  lemma Code500()
    ensures Decimal.IntToString(500) == "500" && HttpStatus.Text(500) == "Internal Server Error"
  {
  }

  /** A 429 error with an empty envelope reads "HTTP 429 Too Many Requests". */
  lemma ThrottledText()
    ensures ResponseError(429, EMPTY_BODY).Error() == "HTTP 429 Too Many Requests"
  {
    Code429();
    ErrorFromParts(ResponseError(429, EMPTY_BODY), "429", "Too Many Requests", "");
  }

  /** A 500 error shows its message after the reason phrase. */
  lemma ServerErrorText()
    ensures ResponseError(500, ResponseBody(false, "blah", [])).Error() == "HTTP 500 Internal Server Error: blah"
  {
    Code500();
    ErrorFromParts(ResponseError(500, ResponseBody(false, "blah", [])), "500", "Internal Server Error", ": blah");
  }

  /** A 500 error without a message ends at the reason phrase. */
  lemma ServerErrorTextWithoutMessage()
    ensures ResponseError(500, EMPTY_BODY).Error() == "HTTP 500 Internal Server Error"
  {
    Code500();
    ErrorFromParts(ResponseError(500, EMPTY_BODY), "500", "Internal Server Error", "");
  }

  /** A parse failure's text is "parse body: " and the decoder's error text, and it unwraps to that error. */
  lemma ParseFailureText(partial: ResponseBody, cause: Failure)
    ensures ParseBody(Decoded(partial, Some(cause))).1 == Some(Wrapped("parse body", cause))
    ensures ParseBody(Decoded(partial, Some(cause))).1.value.Error() == "parse body: " + cause.Error()
  {
  }
}
