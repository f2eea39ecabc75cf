# http-interceptor-go: the request interceptor, in Dafny

Package `ihandler` wraps an HTTP handler in an interceptor. The value that
`New` returns is a response writer that:

- keeps body writes in an in-memory buffer (`Write`). The buffer holds the
  slices handed to `Write` themselves, not copies of their bytes, and
- passes cookies and headers straight to the real `http.ResponseWriter`
  (`SetCookie`, `AddHeader`).

Its `HandleFunc` serves a request in three steps:

1. It binds the real writer and runs the one authorizer.
2. If the authorizer returns an error, it sends an error response (`http.Error`)
   and stops. The status is the one returned. The message is the one returned,
   or the error's text when that message is empty.
3. Otherwise it runs the user handler once. Then it writes the buffered slices
   to the real writer in order, with the bytes they hold at that moment, and
   stops at the first write that fails.

The model has three modules:

- `Http` (http.dfy): the parts of net/http the interceptor touches.
  - The real writer is a class, `ResponseSink`. It keeps the log of events it
    received: headers added, cookies set, error responses and body writes.
  - It also holds a fixed set of write indices at which a body write fails,
    for example because the client went away.
  - Projections of that log (body writes attempted, chunks delivered, error
    responses, status line) let properties be stated about what the client
    sees.
  - `HeaderValues` is the sink's header map. Values are filed under the
    canonical form of the name (`CanonicalKey`, as textproto's
    CanonicalMIMEHeaderKey does it), and a cookie adds a line under
    "Set-Cookie".
- `IHandler` (ihandler.dfy): the interceptor.
  - It is a class with the buffer (`respBytes`, a sequence of byte arrays),
    the bound sink (`rw`) and the two callbacks.
  - A callback is a function from the request to the writer calls it makes
    (`Op`): a Write of a new slice, a copy into a slice it wrote earlier, a
    header, or a cookie. An authorizer also returns an
    `(error, status, message)` result.
  - `Buffered` gives what the callback's slices hold when it returns, so a
    copy into a slice after it was written shows in the buffer.
  - `Serve` is a reference definition of what serving one request does to
    the buffer's contents and to the sink. `HandleFunc` is proved to do
    exactly that.
  - The lemmas about `Serve` state the interceptor's guarantees: deny
    short-circuits, message fallback, chunk order, stop on the first failure,
    and headers bypassing the buffer.
- `Scenarios` (scenarios.dfy): the callbacks of the package's tests
  (`loginPage`, `updateMyResource`, `myDummyAuthorizer`, `myRealAuthorizer`),
  run through the interceptor, with the responses they produce.

The model follows the code:

- There is one authorizer and no response monitors or handler chains.
- The buffer is made once in `New` and is never cleared by `HandleFunc`. A
  second request served by the same interceptor therefore sends the first
  request's body again, ahead of its own. `BufferCarriesOver` and
  `Scenarios.RepeatedLogin` state this as the code does it.
- `Write` keeps the caller's slice. A handler that writes a slice, changes
  it, and writes it again sends the changed bytes twice.
  `Scenarios.ReusedSlice` shows this.
- The package's tests call a four-argument `New` (handler, authorizer,
  checker, logger). `ihandler/handler.go` only has the two-argument one,
  which the scenarios use.

## Model

| member | source | states |
|---|---|---|
| IHandler.InterceptResponseWriter.New | ihandler/handler.go:64-71 | the buffer starts empty, no sink is bound, and the stored handler and authorizer are exactly the ones given |
| IHandler.InterceptResponseWriter.Write | ihandler/handler.go:81-84 | the slice `b` itself (the same array, not a copy) becomes the new last element of the buffer and earlier elements stay as they were; it returns the full length and no error |
| IHandler.InterceptResponseWriter.SetCookie | ihandler/handler.go:87-89 | the real sink receives the cookie, which adds one line after the existing Set-Cookie lines; the buffer is untouched |
| IHandler.InterceptResponseWriter.AddHeader | ihandler/handler.go:91-93 | the real sink receives the header; the value is added after the values already held under the canonical key of that name; the buffer is untouched |
| IHandler.InterceptResponseWriter.Perform | ihandler/handler.go:113 | carrying out a callback's calls keeps the earlier buffer elements, appends one fresh slice per Write, leaves the buffer holding the old contents followed by what the callback's slices hold at the end (`Buffered`), and sends exactly its header and cookie calls to the sink, in call order |
| IHandler.InterceptResponseWriter.HandleFunc | ihandler/handler.go:97-121 | binds the sink and keeps the earlier buffer elements; the buffer's new contents and everything the sink receives are those of the reference definition `Serve`, given the buffer's old contents and the sink's earlier body writes |
| IHandler.Flush | ihandler/handler.go:114-120 | the flush loop appends to the sink's log exactly the writes `FlushEvents` describes for the bytes the slices hold now: each in order, up to and including the first failed write, and nothing after it |
| IHandler.DenyMessage | ihandler/handler.go:103-105 | an empty returned message falls back to the error's text; a non-empty one is used unchanged |
| IHandler.MetadataBypassesBuffer | ihandler/handler.go:86-93 | header and cookie calls reach the sink as header-level events only, carrying no body write and no error response; the buffer gets exactly one slice per Write |
| IHandler.FlushIsBodyOnly | ihandler/handler.go:114-120 | a flush sends only body writes, at most one per buffered chunk, and no error response |
| IHandler.FlushDeliversAll | ihandler/handler.go:114-120 | with no failing write, the chunks attempted and the chunks delivered are both exactly the buffer, in order and unmodified |
| IHandler.FlushStopsAtFirstFailure | ihandler/handler.go:114-119 | if write k is the first to fail, there are exactly k+1 writes; chunks 0..k were attempted, 0..k-1 delivered, and the last write is chunk k, failed |
| IHandler.DenyShortCircuits | ihandler/handler.go:101-111 | on deny the outcome does not depend on the user handler; no body write reaches the sink; exactly one error response is sent, with the returned status and the fallback message; the buffer keeps only the authorizer's writes |
| IHandler.AllowHeadersBeforeBody | ihandler/handler.go:113-120 | on allow, the sink first receives the authorizer's header calls and then the handler's (each exactly once); after that it receives only body writes; no error response is sent |
| IHandler.AllowDeliversBuffer | ihandler/handler.go:113-120 | on allow with no failing write, the body attempted and delivered is the whole buffer; its bytes are the earlier buffer's, then the authorizer's writes, then the handler's |
| IHandler.AllowStopsAtFirstFailure | ihandler/handler.go:114-119 | on allow, when flush write k is the first to fail, buffer chunks 0..k were attempted and 0..k-1 delivered, and the request ends with that failed write |
| IHandler.BufferCarriesOver | ihandler/handler.go:114 | the buffer is never reset: the old buffer stays at the front of the new one, and on allow with a healthy sink it is delivered again before this request's chunks |
| Http.ResponseSink.Write | ihandler/handler.go:115-116 | a body write is recorded whether or not it succeeds; it fails exactly at the sink's failing indices, and then reports 0 bytes |
| Http.ResponseSink.AddHeader | ihandler/handler.go:92 | Header().Add records one more entry, and the values under the canonical key of the name are the earlier ones followed by this one |
| Http.ResponseSink.SetCookie | ihandler/handler.go:88 | http.SetCookie records one cookie event, and the Set-Cookie lines are the earlier ones followed by this cookie's |
| Http.ResponseSink.Error | ihandler/handler.go:109 | http.Error records one error response with its status and message |
| Http.AddHeaderKeepsValues | ihandler/handler.go:92 | adding a header appends its value after the existing values of its canonical key, and leaves the values of every other key unchanged |
| IHandler.InterceptResponseWriter.PerformOne | ihandler/handler.go:81-93 | one call of a callback: a Write adds one fresh slice, a copy changes the contents as `BufferStep` says, and a header or cookie call reaches the sink; nothing else is added to the buffer |
| IHandler.InterceptResponseWriter.WriteFresh | ihandler/handler.go:81-84 | a Write of a new slice: the slice is fresh, holds the given bytes, and is the buffer's new last element |
| IHandler.CopyIntoBuffer | ihandler/handler.go:82 | a copy into one buffered slice changes that element of the buffer's contents as Go's copy does and leaves every other element as it was |
| IHandler.CopyInto | ihandler/handler.go:82 | Go's copy into a slice: the length is kept, the first min(len(dst), len(src)) bytes come from the source and the rest stay |
| IHandler.UntouchedSlicesKeepWrites | ihandler/handler.go:81-84 | when a callback copies into none of its slices, the buffer holds exactly the bytes it wrote, one slice per Write, in call order |
| IHandler.CopyAfterWriteShows | ihandler/handler.go:82 | a copy into slice k after it was written changes what the buffer holds for slice k, and for no other slice |
| IHandler.AllowDeliversWrites | ihandler/handler.go:113-120 | on allow with no failing write and no copy into a written slice, the client receives the earlier buffer's bytes, then the authorizer's writes, then the handler's, in call order |
| Http.StatusCode | ihandler/handler.go:109-115 | the status is that of the first event that is not a header: an error response's status, or 200 for a body write; 200 when there is no such event |
| Http.CanonicalKey | ihandler/handler.go:92 | the key has the name's length; a name that is not a token is kept as it is |
| Http.CanonicalKeyIdempotent | ihandler/handler.go:92 | canonicalising a key a second time changes nothing |
| Http.CanonicalKeyIgnoresCase | ihandler/handler.go:92 | two token names that differ only in the case of letters are filed under one key |
| Http.SetCookieAddsLine | ihandler/handler.go:88 | setting a cookie appends one Set-Cookie line after those already present and leaves the values of every other key unchanged |
| Scenarios.DummyAuthorizer | ihandler/handler_test.go:35-39 | myDummyAuthorizer allows every request and makes no call on the writer |
| Scenarios.RealAuthorizer | ihandler/handler_test.go:41-57 | myRealAuthorizer allows exactly when the request carries a cookie named MyWebSite; on deny the status is 401 with "missing cookie for MyWebSite" and no call on the writer; on allow it sets one cookie, a MyWebSite cookie of the request |
| Scenarios.LoginTwice | ihandler/handler.go:114 | two logins on one buffer: the first client gets "hello buddy", the second gets it twice |
| Scenarios.ReusedSlice | ihandler/handler.go:81-84 | one slice written, changed to "HELLO", and written again: the client receives "HELLOHELLO", not "helloHELLO" |
| Scenarios.FindCookie | ihandler/handler_test.go:43 | Request.Cookie finds a cookie of the requested name that is in the request, or reports that none of the request's cookies has that name |
| Scenarios.LoginPageCalls | ihandler/handler_test.go:59-78 | loginPage buffers "hello" then " buddy" and sends only its cookie to the sink |
| Scenarios.UpdateCalls | ihandler/handler_test.go:92-100 | updateMyResource buffers its confirmation and sends only its ETag header to the sink |
| Scenarios.LoginBodyText | ihandler/handler_test.go:31 | the two login chunks together are the body "hello buddy" |
| Scenarios.LoginServed | ihandler/handler_test.go:146-187 | a login behind the allow-all authorizer sends the cookie, then both chunks; the status is 200; the client gets "hello buddy", or only "hello" when the second write fails |
| Scenarios.LoginDelivers | ihandler/handler_test.go:59-78 | a login appends its two chunks to whatever the buffer held, and a healthy sink receives the old buffer's bytes followed by "hello buddy" |
| Scenarios.UpdateServed | ihandler/handler_test.go:41-57 | for any request carrying a MyWebSite cookie, the sink gets that cookie (the first of the name, as Request.Cookie finds it), then the ETag header, then the confirmation body, with status 200 |
| Scenarios.UpdateDenied | ihandler/handler_test.go:41-47 | for any request carrying no MyWebSite cookie (other cookies or none), the buffer is unchanged, and the sink gets exactly one 401 response with "missing cookie for MyWebSite" and no body |
| Scenarios.ReturnedCookie | ihandler/handler_test.go:146-187 | a fresh interceptor serving the login: cookie first, status 200, body "hello buddy" |
| Scenarios.MissingCookie | ihandler/handler_test.go:110-144 | a fresh interceptor serving an update without the cookie: status 401, the authorizer's message, no body, and nothing buffered |
| Scenarios.UpdateWithCookie | ihandler/handler_test.go:41-57 | a fresh interceptor serving an update with the cookie: the exact event sequence and status 200 |
| Scenarios.RepeatedLogin | ihandler/handler.go:114 | two logins on one interceptor: the second client receives "hello buddy" twice, because the buffer is not cleared |
| Scenarios.BrokenConnection | ihandler/handler.go:114-119 | a login whose second write fails: the flush stops there, and the client got "hello" only |

## Left out

- `Header()` and `WriteHeader()` (ihandler/handler.go:73-79) each call themselves and never terminate. They are not modelled as pass-throughs or as anything else.
- The `log.Printf` calls on the deny and write-failure paths are logging only and are not modelled.
- What `http.Error` and `http.SetCookie` put on the wire is not modelled: Content-Type and nosniff headers, the trailing newline, and the Set-Cookie encoding with expiry and attributes. Each is one sink event, and a cookie is one Set-Cookie line in the header map.
- `Cookie` has a name and a value only; expiry and the other attributes are not modelled. `http.SetCookie` silently drops a cookie with an invalid name; the model records every cookie.
- The `httptest` server, the HTTP client and the `testHandler` wiring of the tests are network I/O and are not modelled. The scenarios state the same responses on the sink's log instead.
- Response monitors, the logger, and the four-argument `New` that the tests call do not exist in ihandler/handler.go and are not modelled.
- Concurrent requests sharing one interceptor would race on `respBytes` and `rw`. The model is sequential.
- Http.ResponseSink.Write: a failing write reports 0 bytes written. Partial writes (a nonzero count together with an error) are not modelled, since HandleFunc only logs the count.
- Http.ResponseSink.Error: any status is accepted. In Go, `http.Error` with a status outside 100..999 panics, and a 1xx status other than 101 is sent as an informational response that does not end the request (ihandler/handler.go:109; the authorizer is expected to return a valid status, ihandler/handler.go:49). These panics and informational responses are not modelled.
- IHandler.InterceptResponseWriter.SetCookie and IHandler.InterceptResponseWriter.AddHeader require a bound sink. In Go, calling them before the first HandleFunc dereferences a nil writer and panics; that panic is not modelled. Likewise `New` with a nil callback (a panic in HandleFunc) cannot be expressed, since the callbacks are total functions.
- IHandler.InterceptResponseWriter.HandleFunc: a callback is modelled as a deterministic function from the request to the writer calls it makes. A callback that reads the clock (loginPage sets `Expires: time.Now()`, ihandler/handler_test.go:71), global state or response state (for example through `Header()`) is outside the model, since `Header()` does not terminate and the clock is not modelled.
- IHandler.Op: a callback can copy only into slices it handed to Write itself during the same call, and it cannot hand the same slice to Write twice. Aliasing across requests, or within one callback's two Writes, is shown only by calling `Write` directly, as `Scenarios.ReusedSlice` does.
- Scenarios.MissingCookie: the test checks that the body starts with the message; the model records the message in the error-response event rather than as body bytes.
