/*
 * The callbacks and requests of the package's tests, run through the
 * interceptor: a login page behind an authorizer that lets everything
 * through, and a resource update behind an authorizer that demands a
 * session cookie.
 */
module Scenarios {
  import opened Http
  import opened IHandler

  predicate IsAscii(s: string) {
    forall i :: 0 <= i < |s| ==> s[i] as int < 128
  }

  /** []byte(s) for a string of ASCII characters: one byte per character. */
  function Ascii(s: string): (b: seq<Byte>)
    requires IsAscii(s)
    ensures |b| == |s|
  {
    seq(|s|, i requires 0 <= i < |s| && s[i] as int < 128 => s[i] as int as Byte)
  }

  /** The chunks the test handlers write. */
  const Hello: Chunk := Ascii("hello")
  const Buddy: Chunk := Ascii(" buddy")
  const Updated: Chunk := Ascii("updated successfully")
  /** The bytes a handler copies over "hello" in the slice-reuse scenario. */
  const Upper: Chunk := Ascii("HELLO")

  const SiteCookie := "MyWebSite"
  const LoginCookie := Cookie(SiteCookie, "a1b2c3")
  const MissingCookieMessage := "missing cookie for MyWebSite"
  /** The text of net/http's ErrNoCookie. */
  const NoCookieError := Error("http: named cookie not present")
  const Unauthorized := 401

  /** Request.Cookie(name): the first cookie of that name, if any. */
  function FindCookie(cookies: seq<Cookie>, name: string): (c: Option<Cookie>)
    ensures c.Some? ==> c.value in cookies && c.value.name == name
    ensures c.None? ==> forall i :: 0 <= i < |cookies| ==> cookies[i].name != name
  {
    if cookies == [] then None
    else if cookies[0].name == name then Some(cookies[0])
    else FindCookie(cookies[1..], name)
  }

  /** myDummyAuthorizer: allows every request without touching the writer. */
  function DummyAuthorizer(r: Request): (step: AuthStep)
    ensures step.effects == [] && step.result.err.None?
  {
    AuthStep([], AuthResult(None, 0, ""))
  }

  /**
   * myRealAuthorizer: without a cookie named MyWebSite it denies with 401 and
   * the missing-cookie message, touching nothing; with one, it allows and
   * sets that same cookie on the response.
   */
  function RealAuthorizer(r: Request): (step: AuthStep)
    ensures step.result.err.None? <==> exists c :: c in r.cookies && c.name == SiteCookie
    ensures step.result.err.Some? ==>
              step.effects == [] && step.result.status == Unauthorized && step.result.msg == MissingCookieMessage
    ensures step.result.err.None? ==>
              |step.effects| == 1 && step.effects[0].SetCookie?
              && step.effects[0].cookie in r.cookies && step.effects[0].cookie.name == SiteCookie
  {
    var found := FindCookie(r.cookies, SiteCookie);
    assert found.None? ==> forall c :: c in r.cookies ==> c.name != SiteCookie by {
      if found.None? {
        forall c | c in r.cookies ensures c.name != SiteCookie {
          var i :| 0 <= i < |r.cookies| && r.cookies[i] == c;
        }
      }
    }
    match found
    case None => AuthStep([], AuthResult(Some(NoCookieError), Unauthorized, MissingCookieMessage))
    case Some(ck) => AuthStep([SetCookie(ck)], AuthResult(None, 0, ""))
  }

  /** loginPage: writes "hello", sets the site cookie, writes " buddy". */
  function LoginPage(r: Request): seq<Op> {
    [Write(Hello), SetCookie(LoginCookie), Write(Buddy)]
  }

  /** updateMyResource: adds an ETag header and writes a confirmation. */
  function UpdateMyResource(r: Request): seq<Op> {
    [AddHeader("ETag", "a1"), Write(Updated)]
  }

  lemma AsciiAppend(a: string, b: string)
    requires IsAscii(a) && IsAscii(b)
    ensures IsAscii(a + b) && Ascii(a + b) == Ascii(a) + Ascii(b)
  {
    assert IsAscii(a + b) by {
      forall i | 0 <= i < |a + b| ensures (a + b)[i] as int < 128 {
        if i >= |a| { assert (a + b)[i] == b[i - |a|]; }
      }
    }
  }

  /** The body the login test expects is the two chunks run together. */
  lemma LoginBodyText()
    ensures Hello + Buddy == Ascii("hello buddy")
  {
    AsciiAppend("hello", " buddy");
  }

  /** What loginPage buffers and what it sends straight to the sink. */
  lemma LoginPageCalls(r: Request)
    ensures Buffered(LoginPage(r)) == [Hello, Buddy]
    ensures MetaEvents(LoginPage(r)) == [CookieSet(LoginCookie)]
  {
    var ops := LoginPage(r);
    assert ops[..2] == [Write(Hello), SetCookie(LoginCookie)];
    assert ops[..2][..1] == [Write(Hello)];
    assert [Write(Hello)][..0] == [];
    assert Buffered([Write(Hello)]) == [Hello];
    assert Buffered(ops[..2]) == [Hello];
    var tail := [Write(Buddy)];
    assert tail[1..] == [];
    assert MetaEvents(tail) == [];
    assert ops[1..][1..] == tail;
    assert MetaEvents(ops[1..]) == [CookieSet(LoginCookie)];
  }

  /** What updateMyResource buffers and what it sends straight to the sink. */
  lemma UpdateCalls(r: Request)
    ensures Buffered(UpdateMyResource(r)) == [Updated]
    ensures MetaEvents(UpdateMyResource(r)) == [HeaderAdded("ETag", "a1")]
  {
    var ops := UpdateMyResource(r);
    assert ops[..1] == [AddHeader("ETag", "a1")];
    assert ops[..1][..0] == [];
    assert Buffered(ops[..1]) == [];
    assert ops[1..][1..] == [];
    assert MetaEvents(ops[1..]) == [];
  }

  /** Flushing two chunks from write index `next`. */
  lemma FlushTwo(a: Chunk, b: Chunk, next: nat, failing: set<nat>)
    requires next !in failing
    ensures FlushEvents([a, b], next, failing)
         == [BodyWrite(a, true), BodyWrite(b, next + 1 !in failing)]
  {
    assert [a, b][1..] == [b];
    assert [b][1..] == [];
    if next + 1 in failing {
      assert FlushEvents([b], next + 1, failing) == [BodyWrite(b, false)];
    } else {
      assert FlushEvents([b], next + 1, failing) == [BodyWrite(b, true)];
    }
  }

  /** Flushing one chunk to a healthy sink. */
  lemma FlushOne(a: Chunk, next: nat, failing: set<nat>)
    requires next !in failing
    ensures FlushEvents([a], next, failing) == [BodyWrite(a, true)]
  {
    assert [a][1..] == [];
  }

  /** The bytes of two chunks. */
  lemma ConcatTwo(a: Chunk, b: Chunk)
    ensures Concat([a, b]) == a + b
  {
    assert [a, b][1..] == [b];
    assert [b][1..] == [];
    assert Concat([b]) == b + [] == b;
  }

  /** The body of a log whose only body events are two writes. */
  lemma BodyOfTwo(e: Event, a: Chunk, b: Chunk, okB: bool)
    requires !e.BodyWrite?
    ensures Concat(Delivered([e, BodyWrite(a, true), BodyWrite(b, okB)])) == if okB then a + b else a
  {
    var log := [e, BodyWrite(a, true), BodyWrite(b, okB)];
    assert log[1..] == [BodyWrite(a, true), BodyWrite(b, okB)];
    assert log[1..][1..] == [BodyWrite(b, okB)];
    assert log[1..][1..][1..] == [];
    assert Delivered(log[1..][1..]) == if okB then [b] else [];
    assert Delivered(log) == [a] + Delivered(log[1..][1..]);
    assert [a][1..] == [];
    if okB {
      assert [a, b][1..] == [b];
      assert [b][1..] == [];
      assert Concat([b]) == b + [] == b;
      assert Concat([a, b]) == a + b;
    } else {
      assert Concat([a]) == a + [] == a;
    }
  }

  /**
   * Serving loginPage behind the allow-all authorizer: the cookie first,
   * then the buffer flushed; the second write's fate depends on the sink.
   */
  lemma LoginServed(r: Request, failing: set<nat>)
    requires 0 !in failing
    ensures var events := Serve(DummyAuthorizer(r), LoginPage(r), [], 0, failing).events;
            && events == [CookieSet(LoginCookie), BodyWrite(Hello, true), BodyWrite(Buddy, 1 !in failing)]
            && StatusCode(events) == 200
            && Concat(Delivered(events)) == if 1 in failing then Hello else Hello + Buddy
  {
    var step := DummyAuthorizer(r);
    var events := Serve(step, LoginPage(r), [], 0, failing).events;
    AllowShape(step, LoginPage(r), [], 0, failing);
    LoginPageCalls(r);
    assert Buffered(step.effects) == [] && MetaEvents(step.effects) == [];
    assert [] + [] + [Hello, Buddy] == [Hello, Buddy];
    FlushTwo(Hello, Buddy, 0, failing);
    assert events[1..][0] == BodyWrite(Hello, true);
    BodyOfTwo(CookieSet(LoginCookie), Hello, Buddy, 1 !in failing);
  }

  /** Serving loginPage on a healthy sink appends its two chunks and sends the whole buffer. */
  lemma LoginDelivers(r: Request, buffer: seq<Chunk>)
    ensures var s := Serve(DummyAuthorizer(r), LoginPage(r), buffer, 0, {});
            && s.buffer == buffer + [Hello, Buddy]
            && Concat(Delivered(s.events)) == Concat(buffer) + Hello + Buddy
  {
    var step := DummyAuthorizer(r);
    var s := Serve(step, LoginPage(r), buffer, 0, {});
    LoginPageCalls(r);
    assert Buffered(step.effects) == [];
    AllowDeliversBuffer(step, LoginPage(r), buffer, 0, {});
    var chunks := [Hello, Buddy];
    ConcatTwo(Hello, Buddy);
    ConcatAppend(buffer, chunks);
    assert Concat([]) == [];
  }

  /**
   * Serving updateMyResource behind myRealAuthorizer to a request carrying
   * a MyWebSite cookie: the first such cookie is set on the response, then
   * the ETag header goes out, then the confirmation body.
   */
  lemma UpdateServed(r: Request)
    requires FindCookie(r.cookies, SiteCookie).Some?
    ensures var c := FindCookie(r.cookies, SiteCookie).value;
            var events := Serve(RealAuthorizer(r), UpdateMyResource(r), [], 0, {}).events;
            && events == [CookieSet(c), HeaderAdded("ETag", "a1"), BodyWrite(Updated, true)]
            && StatusCode(events) == 200
  {
    var c := FindCookie(r.cookies, SiteCookie).value;
    var step := RealAuthorizer(r);
    var events := Serve(step, UpdateMyResource(r), [], 0, {}).events;
    assert step == AuthStep([SetCookie(c)], AuthResult(None, 0, ""));
    assert step.effects[1..] == [];
    assert Buffered(step.effects) == [] && MetaEvents(step.effects) == [CookieSet(c)];
    AllowShape(step, UpdateMyResource(r), [], 0, {});
    UpdateCalls(r);
    assert [] + [] + [Updated] == [Updated];
    FlushOne(Updated, 0, {});
    assert events[1..] == [HeaderAdded("ETag", "a1"), BodyWrite(Updated, true)];
    assert events[1..][1..] == [BodyWrite(Updated, true)];
    assert StatusCode(events[1..][1..]) == 200;
  }

  /** Serving updateMyResource behind myRealAuthorizer to a request carrying no MyWebSite cookie. */
  lemma UpdateDenied(r: Request, buffer: seq<Chunk>)
    requires forall c :: c in r.cookies ==> c.name != SiteCookie
    ensures var s := Serve(RealAuthorizer(r), UpdateMyResource(r), buffer, 0, {});
            && s.buffer == buffer
            && s.events == [ErrorSent(Unauthorized, MissingCookieMessage)]
            && StatusCode(s.events) == Unauthorized && Delivered(s.events) == []
  {
    var step := RealAuthorizer(r);
    assert step == AuthStep([], AuthResult(Some(NoCookieError), Unauthorized, MissingCookieMessage));
    assert buffer + [] == buffer;
  }

  /**
   * A login through the allow-all authorizer: status 200, the cookie
   * header goes out first, then both writes, in order, as one body.
   */
  method ReturnedCookie() returns (log: seq<Event>)
    ensures log == [CookieSet(LoginCookie), BodyWrite(Hello, true), BodyWrite(Buddy, true)]
    ensures StatusCode(log) == 200
    ensures Concat(Delivered(log)) == Hello + Buddy
  {
    var irw := new InterceptResponseWriter.New(LoginPage, DummyAuthorizer);
    var w := new ResponseSink({});
    var req := Request([]);
    irw.HandleFunc(w, req);
    log := w.log;
    LoginServed(req, {});
  }

  /**
   * An update without the site cookie: status 401 with the authorizer's
   * message, no body, and the handler never ran (its ETag header is not
   * sent and nothing was buffered).
   */
  method MissingCookie() returns (log: seq<Event>, buffered: seq<Chunk>)
    ensures log == [ErrorSent(Unauthorized, MissingCookieMessage)]
    ensures StatusCode(log) == Unauthorized && Delivered(log) == []
    ensures buffered == []
  {
    var irw := new InterceptResponseWriter.New(UpdateMyResource, RealAuthorizer);
    var w := new ResponseSink({});
    var req := Request([]);
    irw.HandleFunc(w, req);
    log, buffered := w.log, Contents(irw.respBytes);
    UpdateDenied(req, []);
  }

  /**
   * An update carrying the site cookie: the authorizer's cookie and the
   * handler's ETag header go out before the body.
   */
  method UpdateWithCookie() returns (log: seq<Event>)
    ensures log == [CookieSet(LoginCookie), HeaderAdded("ETag", "a1"),
                    BodyWrite(Updated, true)]
    ensures StatusCode(log) == 200
  {
    var irw := new InterceptResponseWriter.New(UpdateMyResource, RealAuthorizer);
    var w := new ResponseSink({});
    var req := Request([LoginCookie]);
    irw.HandleFunc(w, req);
    log := w.log;
    assert FindCookie(req.cookies, SiteCookie) == Some(LoginCookie);
    UpdateServed(req);
  }

  /** Two logins in a row on one buffer, starting empty, each to a healthy sink. */
  lemma LoginTwice(r: Request)
    ensures var s1 := Serve(DummyAuthorizer(r), LoginPage(r), [], 0, {});
            var s2 := Serve(DummyAuthorizer(r), LoginPage(r), s1.buffer, 0, {});
            && Concat(Delivered(s1.events)) == Hello + Buddy
            && Concat(Delivered(s2.events)) == (Hello + Buddy) + (Hello + Buddy)
  {
    LoginDelivers(r, []);
    var s1 := Serve(DummyAuthorizer(r), LoginPage(r), [], 0, {});
    assert s1.buffer == [Hello, Buddy];
    LoginDelivers(r, s1.buffer);
    ConcatTwo(Hello, Buddy);
    assert Concat([]) == [];
  }

  /**
   * Two logins on the same writer: the buffer is not cleared between
   * requests, so the second client receives the first response's body
   * again, followed by its own.
   */
  method RepeatedLogin() returns (first: seq<Byte>, second: seq<Byte>)
    ensures first == Hello + Buddy
    ensures second == (Hello + Buddy) + (Hello + Buddy)
  {
    var irw := new InterceptResponseWriter.New(LoginPage, DummyAuthorizer);
    var req := Request([]);
    ghost var s1 := Serve(DummyAuthorizer(req), LoginPage(req), [], 0, {});
    ghost var s2 := Serve(DummyAuthorizer(req), LoginPage(req), s1.buffer, 0, {});
    LoginTwice(req);
    var w1 := new ResponseSink({});
    irw.HandleFunc(w1, req);
    assert w1.log == s1.events;
    first := Concat(Delivered(w1.log));
    var w2 := new ResponseSink({});
    irw.HandleFunc(w2, req);
    assert w2.log == s2.events;
    second := Concat(Delivered(w2.log));
  }

  /**
   * A login whose client goes away after the first chunk: the second
   * write fails, and the client got "hello" only.
   */
  method BrokenConnection() returns (log: seq<Event>)
    ensures log == [CookieSet(LoginCookie), BodyWrite(Hello, true), BodyWrite(Buddy, false)]
    ensures Concat(Delivered(log)) == Hello
  {
    var irw := new InterceptResponseWriter.New(LoginPage, DummyAuthorizer);
    var w := new ResponseSink({1});
    var req := Request([]);
    irw.HandleFunc(w, req);
    log := w.log;
    LoginServed(req, {1});
  }

  /** A handler that makes no call on the writer. */
  function NoCalls(r: Request): seq<Op> {
    []
  }

  /** Serving two buffered chunks behind the allow-all authorizer with a handler that makes no call. */
  lemma TwoChunksServed(r: Request, a: Chunk, b: Chunk)
    ensures Concat(Delivered(Serve(DummyAuthorizer(r), NoCalls(r), [a, b], 0, {}).events)) == a + b
  {
    AllowDeliversBuffer(DummyAuthorizer(r), NoCalls(r), [a, b], 0, {});
    ConcatTwo(a, b);
    assert Concat([]) == [];
  }

  /** "HELLOHELLO" is not "helloHELLO". */
  lemma CaseShows()
    ensures Upper + Upper != Hello + Upper
  {
    assert (Upper + Upper)[0] != (Hello + Upper)[0];
  }

  /**
   * One slice handed to Write twice, with "HELLO" copied into it between
   * the two calls: the writer keeps the slice itself, so both buffered
   * chunks hold "HELLO" at flush time and the client receives "HELLOHELLO",
   * not "helloHELLO".
   */
  method ReusedSlice() returns (body: seq<Byte>)
    ensures body == Upper + Upper
    ensures body != Hello + Upper
  {
    var irw := new InterceptResponseWriter.New(NoCalls, DummyAuthorizer);
    var buf := new Byte[5](i requires 0 <= i < 5 => Hello[i]);
    var _, _ := irw.Write(buf);
    CopyIntoSlice(buf, Upper);
    assert |Upper| == 5;
    assert buf[..] == Upper;
    var _, _ := irw.Write(buf);
    assert irw.respBytes == [buf, buf];
    ContentsAt(irw.respBytes);
    assert Contents(irw.respBytes) == [Upper, Upper];
    var w := new ResponseSink({});
    var req := Request([]);
    irw.HandleFunc(w, req);
    assert w.log == Serve(DummyAuthorizer(req), NoCalls(req), [Upper, Upper], 0, {}).events;
    body := Concat(Delivered(w.log));
    TwoChunksServed(req, Upper, Upper);
    CaseShows();
  }
}
