# Danbooru API client: request and response protocol layer

A Dafny model of the protocol layer of a small Go client for the Danbooru
image-board API (package `danbooru`). The model covers two things:

- **Request construction** (`request.go`). `newRequest` targets
  `https://<host><path>`. It adds HTTP Basic credentials only when both the
  login and the API key are set. It sets `Content-Type` only when the body
  declares one. JSON bodies always declare `application/json`, and a post ID
  is sent as the object `{"post_id": id}`.
- **Response handling** (`response.go`). `parseBody` decodes the
  `{success, message, backtrace}` envelope and wraps decoder failures as
  `parse body: …`. `getResponseError` decides whether a response is a failure
  (status 400 or more and `success` false). A failure's text is
  `HTTP <code> <reason phrase>[: <message>]`. Such an error matches the
  `ErrThrottled` sentinel exactly when its status is 429.

Files:

| file | module | contents |
|---|---|---|
| `wrappers.dfy` | `Wrappers` | `Option`, for Go's nil results |
| `decimal.dfy` | `Decimal` | integers as `%d` prints them, a reader for them, and the round trip |
| `http_status.dfy` | `HttpStatus` | the reason-phrase table of `http.StatusText` |
| `response.dfy` | `Response` | envelope, errors, `ParseBody`, `GetResponseError`, `Error`, `Is`, and a reader that inverts `Error` |
| `request.dfy` | `Request` | client and credentials, bodies and JSON values, the `Request` class, `NewRequest` and its header specification |

`NewRequest` is imperative, like the source. It makes a `Request` object and
then updates its header map in place, under two independent conditions. Its
postcondition ties the final header map to the specification function
`RequestHeaders`, whose contract states the header rules as
if-and-only-if conditions. Everything in `response.go` is pure, so it is
modelled as datatypes, functions and lemmas.

Go's `error` values are the datatype `Response.Failure`:

- the `ErrThrottled` sentinel;
- a `fmt.Errorf("<context>: %w", cause)` wrapper;
- a `responseError`;
- an error made outside the layer, such as one from the JSON decoder.

`ErrThrottled` is compared by identity in Go, so in the model it is a
constructor of its own. Another error whose text is also "throttled" is a
different value and does not match.

Points where the code decides something a reader might expect otherwise:

- `responseError.Is` (response.go:78-85) recognises only the `ErrThrottled`
  sentinel. There is no relation that makes two API errors match because
  their status codes are equal, so the model has none.
- response_test.go:65-88 expects a detailed `%+v` rendering that also dumps
  the envelope. `response.go` implements no `Format` method, so only the
  short rendering of `Error` is modelled.
- Both tests build a `responseError` whose `body` is a `*responseBody`
  (response_test.go:30 and response_test.go:79), while the field is a
  `responseBody` value (response.go:50). The model follows the declaration:
  the envelope is a value.

## Model

| member | source | states |
|---|---|---|
| `Response.GetResponseError` | response.go:57-68 | Below 400 there is no error, whatever the envelope says. At 400 or more with `success` set there is no error either. Otherwise the error carries the input status and the input envelope unchanged. |
| `Response.FailureExactly` | response.go:57-68 | A response is a failure if and only if its status is at least 400 and `success` is false. |
| `Response.ThrottledExactly` | response.go:57-85 | Classifying a response gives an error that matches `ErrThrottled` if and only if the status is 429 and `success` is false. |
| `Response.ParseBody` | response.go:34-41 | The envelope the decoder produced is returned, even a partial one when decoding failed. There is an error exactly when the decoder failed. Its text is `parse body: ` followed by the decoder's error text, and it unwraps to the decoder's error. |
| `Response.ParseFailureText` | response.go:37-38 | A decode failure becomes the wrapper `parse body: %w` around the decoder's error. |
| `Response.ResponseError.Error` | response.go:70-76 | The text starts with `HTTP `. When the message is non-empty, the text ends with `: ` and the message. When it is empty, the text ends with the code's reason phrase, with no colon after it. |
| `Response.ResponseError.Is` | response.go:78-85 | An error matches a target if and only if the target is the `ErrThrottled` sentinel and the status is 429. The envelope plays no part, so this covers an error built directly, as at response_test.go:28-34, as well as one from `getResponseError`. |
| `Response.Failure.Error` | response.go:38-45 | `ErrThrottled` reads `throttled`. A wrapper reads its context, then `: `, then exactly the text of the error it wraps. An API error reads as its own `Error`. |
| `Response.Failure.Unwrap` | response.go:38 | Only a `%w` wrapper unwraps, and it unwraps to the error it was made around. |
| `Response.ErrorReadsBack` | response.go:70-76 | Reading an error's text back gives its status code and its message. The reader expects `HTTP `, a decimal code without leading zeros, a space, that code's reason phrase, and then either nothing or `: ` and a non-empty message. |
| `Response.ReadErrorExact` | response.go:70-76 | The converse: any text the reader accepts as code `c` and message `m` is exactly the `Error` text of code `c` with any envelope whose message is `m`. Together with `ErrorReadsBack`, reading and `Error` are inverse. |
| `Response.ErrorInjective` | response.go:70-76 | Two errors with the same text have the same status code and the same message. |
| `Response.ThrottledText` | response_test.go:56-63 | A 429 error with an empty envelope reads `HTTP 429 Too Many Requests`. |
| `Response.ServerErrorText` | response.go:70-76 | A 500 error with message `blah` reads `HTTP 500 Internal Server Error: blah`. |
| `Response.ServerErrorTextWithoutMessage` | response.go:70-76 | A 500 error with an empty message reads `HTTP 500 Internal Server Error`, with no trailing colon. |
| `Response.IsIgnoresBody` | response.go:78-85 | Whether an error matches a target depends on its status code only, never on its envelope. |
| `Response.IsOnlySentinel` | response.go:78-85 | No target other than `ErrThrottled` is ever matched. |
| `Response.ThrottledWithMessage` | response_test.go:26-37 | A 429 error with the message "throttled" matches `ErrThrottled`. A different error with the text "throttled" does not match. |
| `HttpStatus.Text` | response.go:71 | The reason phrase of `http.StatusText`. Only codes from 100 to 599 have one; every other code gives the empty string. |
| `Decimal.NatToString` | response.go:71 | `%d` of a natural number gives a non-empty string of digits, with no leading zero except in "0" itself. |
| `Decimal.IntToString` | response.go:71 | `%d` of an integer gives a leading `-` exactly for negative values, and digits everywhere else. There is no leading zero: only 0 itself starts with `0`, printed as `0`, and no negative value gives `-0…`. |
| `Decimal.NatRoundTrip` | response.go:71 | Reading back the digits printed for a natural number gives that number. |
| `Decimal.IntRoundTrip` | response.go:71 | The text printed for an integer has the shape of an integer, and reading it back gives that integer. |
| `Decimal.NatStringRoundTrip` | response.go:71 | A digit string without a leading zero is exactly what `%d` prints for the number it stands for. |
| `Decimal.IntStringRoundTrip` | response.go:71 | Every string the integer reader accepts is exactly what `%d` prints for the number read, so the reader accepts nothing `%d` cannot print. |
| `Decimal.IntToStringInjective` | response.go:71 | Different integers are printed differently. |
| `Request.RequestHeaders` | request.go:41-46 | Authorization is present if and only if the login and the API key are both non-empty. When present, it holds Basic credentials for exactly that pair. Content-Type is present if and only if the body declares a content type, and then it holds that type. No other header is set. |
| `Request.NewRequest` | request.go:30-48 | A fresh request is built. Its URL has scheme `https`, the client's host and the given path. Its method is passed through, with the empty method becoming GET, and its body is passed through. Its headers are exactly `RequestHeaders` of the client's credentials and the body. |
| `Request.Request.constructor` | request.go:36-39 | `http.NewRequest` makes a request with an empty header map. An invalid method is a precondition, because the source panics on it. |
| `Request.Request.SetBasicAuth` | request.go:42 | Sets Authorization to Basic credentials for the given pair and changes no other header. |
| `Request.Request.SetHeader` | request.go:45 | Sets one header to one value and changes no other header. |
| `Request.Body.ContentType` | request.go:61-63 | A JSON body always declares `application/json`. |
| `Request.NewJsonBody` | request.go:67-73 | The body holds the value it was made from and declares `application/json`. |
| `Request.NewPostIdBody` | request.go:78-86 | The body is a JSON object with the single member name `post_id`, whose value is the post ID. It declares `application/json`. |
| `Request.PostIdBodyInjective` | request.go:78-86 | Different post IDs give different bodies. |
| `Request.JsonBodyContentType` | request.go:44-46 | Every request with a JSON body gets Content-Type `application/json`, whatever the credentials. |
| `Request.PartialCredentialsIgnored` | request.go:41-43 | A login without an API key, or a key without a login, gives the same headers as no credentials at all. |
| `Request.UntypedBodyNoContentType` | request.go:44-46 | A body without a `ContentType` method gives no Content-Type, the same headers as no body. |
| `Request.FavoriteRequestHeaders` | request.go:41-46 | With credentials `username`/`secret` and a post-ID body, the request gets exactly two headers: Basic credentials and `Content-Type: application/json`. |

## Left out

- Logging (`log` and `logf` in client.go) only forwards to an optional sink. It is diagnostic output and is not modelled.
- The HTTP transport, `http.Client` and the test doubles in testclient.go are not modelled. Neither is the cancellation context that `newRequest` attaches at request.go:40.
- `AddFavorite` is not part of this model. Its source is not among the files modelled.
- The JSON decoder used by `parseBody` is library code. Its outcome is an argument: the envelope as far as decoding got, plus its error. Which inputs are malformed, and how missing fields default, are the decoder's concern.
- The bytes that `json.Marshal` produces are not modelled. A JSON body holds the JSON value it encodes. Every value of the model's `Json` type can be marshalled, so the marshal panic at request.go:68-71 cannot arise.
- The base64 encoding inside `SetBasicAuth` is library code. The Authorization value is the abstract `BasicCredentials(login, apiKey)`, standing for `Basic ` followed by the base64 of `login:apiKey`.
- `Request.NewRequest`: the URL is the `url.URL` value built at request.go:31-35. `http.NewRequest` re-parses its `String()` form, which puts a `/` before a path that lacks one and panics on a malformed host. That re-parse is not modelled, so there is no precondition on the host or the path.
- Header names are not canonicalised, and a header holds a single value. `newRequest` only ever sets the two already-canonical names `Authorization` and `Content-Type`, each to one value.
- `errors.Is` is library code: it walks a chain of wrapped errors and asks each one's `Is`. Only `responseError.Is` itself is modelled.
- Go's `int` is 64 bits wide. The model uses unbounded integers, which changes nothing for HTTP status codes or post IDs.
- `HttpStatus.Text` follows the Go library's wording. For five codes that wording differs from the names in section 15 of RFC 9110: 418 "I'm a teapot" (section 15.5.19 lists 418 as "(Unused)"), 413 "Request Entity Too Large" (RFC: "Content Too Large"), 414 "Request URI Too Long" ("URI Too Long"), 416 "Requested Range Not Satisfiable" ("Range Not Satisfiable") and 422 "Unprocessable Entity" ("Unprocessable Content").
- A nil backtrace and an empty one are the same value in the model.
