/*
 * The request interceptor of package ihandler: a response writer that
 * buffers body writes, passes header and cookie writes straight to the
 * real sink, runs one authorizer and then the user handler, and finally
 * flushes the buffered chunks to the real sink, stopping at the first
 * failed write.
 */
module IHandler {
  import opened Http

  /**
   * One thing a callback does with the InterceptResponseWriterI it is given:
   * a Write of a new slice holding `bytes`; a copy of `bytes` into the slice
   * it handed to its `slice`-th Write (counting from 0), which the writer
   * still holds; a header; a cookie.
   */
  datatype Op =
    | Write(bytes: Chunk)
    | Overwrite(slice: nat, bytes: Chunk)
    | AddHeader(name: string, value: string)
    | SetCookie(cookie: Cookie)

  /** The (error, int, string) an AuthorizerFunc returns. */
  datatype AuthResult = AuthResult(err: Option<Error>, status: int, msg: string)

  /** What an authorizer does: the things it does with the writer, then what it returns. */
  datatype AuthStep = AuthStep(effects: seq<Op>, result: AuthResult)

  /**
   * A UserHandlerFunc. The model takes a callback to be a deterministic
   * function of the request: what it does with the writer for that request.
   */
  type UserHandler = Request -> seq<Op>

  /** An AuthorizerFunc, taken to be a deterministic function of the request. */
  type Authorizer = Request -> AuthStep

  /** copy(dst, src): the first min(len(dst), len(src)) bytes of dst replaced by those of src. */
  function CopyInto(dst: Chunk, src: Chunk): (r: Chunk)
    ensures |r| == |dst|
    ensures forall i :: 0 <= i < |dst| ==> r[i] == if i < |src| then src[i] else dst[i]
  {
    if |src| < |dst| then src + dst[|src|..] else src[..|dst|]
  }

  /** The bytes a callback hands to Write, in call order, as they are at the time of each call. */
  function Written(ops: seq<Op>): seq<Chunk> {
    if ops == [] then []
    else Written(ops[..|ops| - 1]) + (if ops[|ops| - 1].Write? then [ops[|ops| - 1].bytes] else [])
  }

  /** What one step of a callback does to the contents of the slices it has written so far. */
  function BufferStep(slices: seq<Chunk>, op: Op): seq<Chunk> {
    match op
    case Write(bytes) => slices + [bytes]
    case Overwrite(k, bytes) => if k < |slices| then slices[k := CopyInto(slices[k], bytes)] else slices
    case _ => slices
  }

  /**
   * The contents of the slices a callback appends to the buffer, in Write
   * order, as they are when the callback returns: the writer keeps the
   * slices themselves, so a later copy into one of them shows here.
   */
  function Buffered(ops: seq<Op>): seq<Chunk> {
    if ops == [] then [] else BufferStep(Buffered(ops[..|ops| - 1]), ops[|ops| - 1])
  }

  /** The events that running `ops` sends straight to the real sink, in call order. */
  function MetaEvents(ops: seq<Op>): seq<Event> {
    if ops == [] then []
    else
      (match ops[0]
       case AddHeader(name, value) => [HeaderAdded(name, value)]
       case SetCookie(cookie) => [CookieSet(cookie)]
       case _ => [])
      + MetaEvents(ops[1..])
  }

  /** The bytes the slices hold now, in buffer order. */
  function Contents(slices: seq<array<Byte>>): (chunks: seq<Chunk>)
    reads slices
    ensures |chunks| == |slices|
  {
    if slices == [] then [] else [slices[0][..]] + Contents(slices[1..])
  }

  /** Chunk i of the contents is what slice i holds. */
  lemma {:induction false} ContentsAt(slices: seq<array<Byte>>)
    ensures forall i :: 0 <= i < |slices| ==> Contents(slices)[i] == slices[i][..]
  {
    if slices != [] {
      ContentsAt(slices[1..]);
      forall i | 1 <= i < |slices| ensures Contents(slices)[i] == slices[i][..] {
        assert slices[1..][i - 1] == slices[i];
      }
    }
  }

  /** The message of the error response sent when an authorizer denies. */
  function DenyMessage(err: Error, msg: string): (m: string)
    ensures msg == "" ==> m == err.text
    ensures msg != "" ==> m == msg
  {
    if msg == "" then err.text else msg
  }

  /**
   * The sink events of flushing `chunks` in order, the first of them being
   * body write number `next` of the sink: every chunk is written once, up to
   * and including the first write that fails, and none after it.
   */
  function FlushEvents(chunks: seq<Chunk>, next: nat, failing: set<nat>): seq<Event> {
    if chunks == [] then []
    else if next in failing then [BodyWrite(chunks[0], false)]
    else [BodyWrite(chunks[0], true)] + FlushEvents(chunks[1..], next + 1, failing)
  }

  /** One step of a flush: write chunk k, and go on only if that succeeded. */
  lemma FlushStep(chunks: seq<Chunk>, k: nat, next: nat, failing: set<nat>)
    requires k < |chunks|
    ensures FlushEvents(chunks[k..], next, failing)
         == if next in failing then [BodyWrite(chunks[k], false)]
            else [BodyWrite(chunks[k], true)] + FlushEvents(chunks[k + 1..], next + 1, failing)
  {
    assert chunks[k..][0] == chunks[k];
    assert chunks[k..][1..] == chunks[k + 1..];
  }

  /** One step of a flush, seen from the log of the sink it writes to. */
  lemma FlushWriteStep(log: seq<Event>, chunks: seq<Chunk>, k: nat, next: nat, failing: set<nat>, ok: bool)
    requires k < |chunks|
    requires ok <==> next !in failing
    ensures var after := log + [BodyWrite(chunks[k], ok)];
            && (ok ==> after + FlushEvents(chunks[k + 1..], next + 1, failing) == log + FlushEvents(chunks[k..], next, failing))
            && (!ok ==> after == log + FlushEvents(chunks[k..], next, failing))
  {
    FlushStep(chunks, k, next, failing);
  }

  /** What one request leaves behind: the buffer, and what the sink received. */
  datatype Served = Served(buffer: seq<Chunk>, events: seq<Event>)

  /**
   * Reference definition of serving one request: `buffer` is the chunk
   * buffer before the request, `writesBefore` the number of body writes the
   * sink had already seen, `failing` the sink's failing write indices.
   */
  function Serve(step: AuthStep, handlerOps: seq<Op>, buffer: seq<Chunk>,
                 writesBefore: nat, failing: set<nat>): Served
  {
    var afterAuth := buffer + Buffered(step.effects);
    var authEvents := MetaEvents(step.effects);
    match step.result.err
    case Some(e) =>
      Served(afterAuth, authEvents + [ErrorSent(step.result.status, DenyMessage(e, step.result.msg))])
    case None =>
      var afterHandler := afterAuth + Buffered(handlerOps);
      Served(afterHandler, authEvents + MetaEvents(handlerOps) + FlushEvents(afterHandler, writesBefore, failing))
  }

  // ---------------------------------------------------------------------
  // Properties of the reference definitions

  lemma {:induction false} MetaEventsAppend(a: seq<Op>, b: seq<Op>)
    ensures MetaEvents(a + b) == MetaEvents(a) + MetaEvents(b)
  {
    if a == [] {
      assert a + b == b;
    } else {
      assert (a + b)[0] == a[0];
      assert (a + b)[1..] == a[1..] + b;
      MetaEventsAppend(a[1..], b);
    }
  }

  /** What the first k + 1 calls of a callback do, from what its first k do. */
  lemma PrefixStep(ops: seq<Op>, k: nat)
    requires k < |ops|
    ensures Buffered(ops[..k + 1]) == BufferStep(Buffered(ops[..k]), ops[k])
    ensures MetaEvents(ops[..k + 1]) == MetaEvents(ops[..k]) + MetaEvents([ops[k]])
  {
    MetaEventsAppend(ops[..k], [ops[k]]);
    assert ops[..k + 1] == ops[..k] + [ops[k]];
    assert ops[..k + 1][..k] == ops[..k];
  }

  /**
   * Header and cookie calls bypass the buffer: what reaches the sink
   * immediately is header-level only, and the buffer gets exactly one slice
   * per Write.
   */
  lemma {:induction false} MetadataBypassesBuffer(ops: seq<Op>)
    ensures forall i :: 0 <= i < |MetaEvents(ops)| ==> IsMeta(MetaEvents(ops)[i])
    ensures BodyWrites(MetaEvents(ops)) == [] && Delivered(MetaEvents(ops)) == []
    ensures ErrorsSent(MetaEvents(ops)) == []
    ensures |Buffered(ops)| == |Written(ops)|
  {
    if ops != [] {
      MetadataBypassesBuffer(ops[1..]);
      MetadataBypassesBuffer(ops[..|ops| - 1]);
    }
    MetaOnlyLog(MetaEvents(ops));
  }

  /**
   * A callback that copies into none of its slices leaves them holding
   * exactly the bytes it wrote, in call order.
   */
  lemma {:induction false} UntouchedSlicesKeepWrites(ops: seq<Op>)
    requires forall i :: 0 <= i < |ops| ==> !ops[i].Overwrite?
    ensures Buffered(ops) == Written(ops)
  {
    if ops != [] {
      UntouchedSlicesKeepWrites(ops[..|ops| - 1]);
    }
  }

  /**
   * A copy into slice k after it was written changes what the buffer holds
   * for it, and only for it.
   */
  lemma CopyAfterWriteShows(ops: seq<Op>, k: nat, bytes: Chunk)
    requires k < |Buffered(ops)|
    ensures var before, after := Buffered(ops), Buffered(ops + [Overwrite(k, bytes)]);
            && |after| == |before|
            && after[k] == CopyInto(before[k], bytes)
            && forall i :: 0 <= i < |before| && i != k ==> after[i] == before[i]
  {
    MetadataBypassesBuffer(ops);
    assert (ops + [Overwrite(k, bytes)])[..|ops|] == ops;
  }

  /** A flush only ever writes body chunks, never more of them than there are. */
  lemma {:induction false} FlushIsBodyOnly(chunks: seq<Chunk>, next: nat, failing: set<nat>)
    ensures |FlushEvents(chunks, next, failing)| <= |chunks|
    ensures forall i :: 0 <= i < |FlushEvents(chunks, next, failing)| ==>
              FlushEvents(chunks, next, failing)[i].BodyWrite?
    ensures ErrorsSent(FlushEvents(chunks, next, failing)) == []
  {
    if chunks != [] && next !in failing {
      FlushIsBodyOnly(chunks[1..], next + 1, failing);
      ProjectionsAppend([BodyWrite(chunks[0], true)], FlushEvents(chunks[1..], next + 1, failing));
    }
  }

  /** With no failing write, the flush writes every chunk, unmodified and in order. */
  lemma {:induction false} FlushDeliversAll(chunks: seq<Chunk>, next: nat, failing: set<nat>)
    requires forall i :: next <= i < next + |chunks| ==> i !in failing
    ensures BodyWrites(FlushEvents(chunks, next, failing)) == chunks
    ensures Delivered(FlushEvents(chunks, next, failing)) == chunks
  {
    if chunks != [] {
      FlushDeliversAll(chunks[1..], next + 1, failing);
      ProjectionsAppend([BodyWrite(chunks[0], true)], FlushEvents(chunks[1..], next + 1, failing));
    }
  }

  /**
   * When the k-th flush write is the first that fails, chunks 0..k were
   * attempted, each once and in order, only 0..k-1 went out, and nothing
   * after k was attempted.
   */
  lemma {:induction false} FlushStopsAtFirstFailure(chunks: seq<Chunk>, next: nat, failing: set<nat>, k: nat)
    requires k < |chunks|
    requires next + k in failing
    requires forall i :: next <= i < next + k ==> i !in failing
    ensures |FlushEvents(chunks, next, failing)| == k + 1
    ensures FlushEvents(chunks, next, failing)[k] == BodyWrite(chunks[k], false)
    ensures BodyWrites(FlushEvents(chunks, next, failing)) == chunks[..k + 1]
    ensures Delivered(FlushEvents(chunks, next, failing)) == chunks[..k]
  {
    if k == 0 {
      assert next in failing;
      assert chunks[..1] == [chunks[0]];
    } else {
      FlushStopsAtFirstFailure(chunks[1..], next + 1, failing, k - 1);
      BodyWritesAppend([BodyWrite(chunks[0], true)], FlushEvents(chunks[1..], next + 1, failing));
      DeliveredAppend([BodyWrite(chunks[0], true)], FlushEvents(chunks[1..], next + 1, failing));
      PrefixOfTail(chunks, k + 1);
      PrefixOfTail(chunks, k);
    }
  }

  /** A non-empty prefix is the head followed by a prefix of the tail. */
  lemma PrefixOfTail<T>(s: seq<T>, n: nat)
    requires 0 < n <= |s|
    ensures s[..n] == [s[0]] + s[1..][..n - 1]
  {
  }

  /**
   * A deny short-circuits: the result does not depend on the user handler
   * at all, nothing is written to the body, and exactly one error response
   * goes out, with the returned status and the message (or, when that is
   * empty, the error's text). The authorizer's own header calls still land
   * first, and its own writes stay buffered.
   */
  lemma DenyShortCircuits(step: AuthStep, handlerOps: seq<Op>, otherOps: seq<Op>,
                          buffer: seq<Chunk>, writesBefore: nat, failing: set<nat>)
    requires step.result.err.Some?
    ensures Serve(step, handlerOps, buffer, writesBefore, failing)
         == Serve(step, otherOps, buffer, writesBefore, failing)
    ensures var s := Serve(step, handlerOps, buffer, writesBefore, failing);
            && s.buffer == buffer + Buffered(step.effects)
            && BodyWrites(s.events) == []
            && ErrorsSent(s.events)
               == [ErrorSent(step.result.status, DenyMessage(step.result.err.value, step.result.msg))]
  {
    var s := Serve(step, handlerOps, buffer, writesBefore, failing);
    MetadataBypassesBuffer(step.effects);
    ProjectionsAppend(MetaEvents(step.effects),
      [ErrorSent(step.result.status, DenyMessage(step.result.err.value, step.result.msg))]);
  }

  /** The allow path of Serve, with the buffer after the handler named. */
  lemma AllowShape(step: AuthStep, handlerOps: seq<Op>,
                   buffer: seq<Chunk>, writesBefore: nat, failing: set<nat>)
    requires step.result.err.None?
    ensures var s := Serve(step, handlerOps, buffer, writesBefore, failing);
            && s.buffer == buffer + Buffered(step.effects) + Buffered(handlerOps)
            && s.events == MetaEvents(step.effects) + MetaEvents(handlerOps)
                           + FlushEvents(s.buffer, writesBefore, failing)
  {
  }

  /** Header calls reaching a sink do not change its count of body writes. */
  lemma MetaKeepsBodyWrites(log: seq<Event>, ops: seq<Op>)
    ensures BodyWrites(log + MetaEvents(ops)) == BodyWrites(log)
  {
    MetadataBypassesBuffer(ops);
    ProjectionsAppend(log, MetaEvents(ops));
  }

  /**
   * The allow path of Serve seen from a sink whose log was `log0`: header
   * calls first, then the flush, numbered after the body writes already in
   * `log0`.
   */
  lemma AllowServed(log0: seq<Event>, step: AuthStep, handlerOps: seq<Op>,
                    buffer: seq<Chunk>, failing: set<nat>)
    requires step.result.err.None?
    ensures var beforeFlush := log0 + MetaEvents(step.effects) + MetaEvents(handlerOps);
            var s := Serve(step, handlerOps, buffer, |BodyWrites(log0)|, failing);
            && s.buffer == buffer + Buffered(step.effects) + Buffered(handlerOps)
            && beforeFlush + FlushEvents(s.buffer, |BodyWrites(beforeFlush)|, failing) == log0 + s.events
  {
    var ma, mh := MetaEvents(step.effects), MetaEvents(handlerOps);
    var s := Serve(step, handlerOps, buffer, |BodyWrites(log0)|, failing);
    AllowShape(step, handlerOps, buffer, |BodyWrites(log0)|, failing);
    MetaKeepsBodyWrites(log0, step.effects);
    MetaKeepsBodyWrites(log0 + ma, handlerOps);
    var flush := FlushEvents(s.buffer, |BodyWrites(log0)|, failing);
    AppendAssoc(log0, ma, mh);
    AppendAssoc(log0, ma + mh, flush);
  }

  /**
   * On allow, the sink first receives the header calls of the authorizer
   * and then those of the handler (the handler's exactly once), and after
   * that only body writes: no header reaches the sink after the first body
   * write, and no error response is sent.
   */
  lemma AllowHeadersBeforeBody(step: AuthStep, handlerOps: seq<Op>,
                               buffer: seq<Chunk>, writesBefore: nat, failing: set<nat>)
    requires step.result.err.None?
    ensures var s := Serve(step, handlerOps, buffer, writesBefore, failing);
            var meta := MetaEvents(step.effects) + MetaEvents(handlerOps);
            && |meta| <= |s.events| && s.events[..|meta|] == meta
            && (forall k :: |meta| <= k < |s.events| ==> s.events[k].BodyWrite?)
            && (forall i, j :: 0 <= i < j < |s.events| && s.events[i].BodyWrite? ==> s.events[j].BodyWrite?)
            && ErrorsSent(s.events) == []
  {
    var s := Serve(step, handlerOps, buffer, writesBefore, failing);
    AllowShape(step, handlerOps, buffer, writesBefore, failing);
    var meta := MetaEvents(step.effects) + MetaEvents(handlerOps);
    var flush := FlushEvents(s.buffer, writesBefore, failing);
    assert s.events == meta + flush;
    MetaEventsAppend(step.effects, handlerOps);
    MetadataBypassesBuffer(step.effects + handlerOps);
    FlushIsBodyOnly(s.buffer, writesBefore, failing);
    ProjectionsAppend(meta, flush);
    HeadersThenBody(meta, flush);
  }

  /** A run of header-level events followed by a run of body writes. */
  lemma HeadersThenBody(meta: seq<Event>, body: seq<Event>)
    requires forall i :: 0 <= i < |meta| ==> IsMeta(meta[i])
    requires forall i :: 0 <= i < |body| ==> body[i].BodyWrite?
    ensures (meta + body)[..|meta|] == meta
    ensures forall k :: |meta| <= k < |meta + body| ==> (meta + body)[k].BodyWrite?
    ensures forall i, j :: 0 <= i < j < |meta + body| && (meta + body)[i].BodyWrite? ==> (meta + body)[j].BodyWrite?
  {
    var log := meta + body;
    forall k | |meta| <= k < |log| ensures log[k].BodyWrite? {
      assert log[k] == body[k - |meta|];
    }
    forall k | 0 <= k < |meta| ensures !log[k].BodyWrite? {
      assert log[k] == meta[k];
    }
  }

  /**
   * On allow with no failing write, the body the sink receives is the
   * whole buffer (every chunk the buffer holds after the handler ran),
   * unmodified and in order; its bytes are the earlier buffer's, then the
   * authorizer's, then the handler's.
   */
  lemma AllowDeliversBuffer(step: AuthStep, handlerOps: seq<Op>,
                            buffer: seq<Chunk>, writesBefore: nat, failing: set<nat>)
    requires step.result.err.None?
    requires forall i :: writesBefore <= i < writesBefore + |buffer| + |Buffered(step.effects)| + |Buffered(handlerOps)|
               ==> i !in failing
    ensures var s := Serve(step, handlerOps, buffer, writesBefore, failing);
            && BodyWrites(s.events) == s.buffer
            && Delivered(s.events) == s.buffer
            && Concat(Delivered(s.events)) == Concat(buffer) + Concat(Buffered(step.effects)) + Concat(Buffered(handlerOps))
  {
    var s := Serve(step, handlerOps, buffer, writesBefore, failing);
    AllowShape(step, handlerOps, buffer, writesBefore, failing);
    var meta := MetaEvents(step.effects) + MetaEvents(handlerOps);
    var flush := FlushEvents(s.buffer, writesBefore, failing);
    assert s.events == meta + flush;
    FlushDeliversAll(s.buffer, writesBefore, failing);
    MetaEventsAppend(step.effects, handlerOps);
    MetadataBypassesBuffer(step.effects + handlerOps);
    ProjectionsAppend(meta, flush);
    assert Delivered(s.events) == s.buffer;
    ConcatAppend(buffer, Buffered(step.effects));
    ConcatAppend(buffer + Buffered(step.effects), Buffered(handlerOps));
  }

  /**
   * On allow with no failing write, when neither callback copies into a
   * slice it already wrote, the body is exactly the bytes of the earlier
   * buffer, then those the authorizer wrote, then those the handler wrote,
   * in call order.
   */
  lemma AllowDeliversWrites(step: AuthStep, handlerOps: seq<Op>,
                            buffer: seq<Chunk>, writesBefore: nat, failing: set<nat>)
    requires step.result.err.None?
    requires forall i :: 0 <= i < |step.effects| ==> !step.effects[i].Overwrite?
    requires forall i :: 0 <= i < |handlerOps| ==> !handlerOps[i].Overwrite?
    requires forall i :: writesBefore <= i < writesBefore + |buffer| + |Written(step.effects)| + |Written(handlerOps)|
               ==> i !in failing
    ensures var s := Serve(step, handlerOps, buffer, writesBefore, failing);
            Concat(Delivered(s.events)) == Concat(buffer) + Concat(Written(step.effects)) + Concat(Written(handlerOps))
  {
    UntouchedSlicesKeepWrites(step.effects);
    UntouchedSlicesKeepWrites(handlerOps);
    AllowDeliversBuffer(step, handlerOps, buffer, writesBefore, failing);
  }

  /**
   * On allow, when flush write k is the first to fail, the sink saw
   * chunks 0..k of the buffer attempted and 0..k-1 delivered, and the
   * request ends there: exactly one failed write, no retry.
   */
  lemma AllowStopsAtFirstFailure(step: AuthStep, handlerOps: seq<Op>,
                                 buffer: seq<Chunk>, writesBefore: nat, failing: set<nat>, k: nat)
    requires step.result.err.None?
    requires k < |buffer| + |Buffered(step.effects)| + |Buffered(handlerOps)|
    requires writesBefore + k in failing
    requires forall i :: writesBefore <= i < writesBefore + k ==> i !in failing
    ensures var s := Serve(step, handlerOps, buffer, writesBefore, failing);
            && BodyWrites(s.events) == s.buffer[..k + 1]
            && Delivered(s.events) == s.buffer[..k]
            && s.events[|s.events| - 1] == BodyWrite(s.buffer[k], false)
  {
    var s := Serve(step, handlerOps, buffer, writesBefore, failing);
    AllowShape(step, handlerOps, buffer, writesBefore, failing);
    var meta := MetaEvents(step.effects) + MetaEvents(handlerOps);
    var flush := FlushEvents(s.buffer, writesBefore, failing);
    assert s.events == meta + flush;
    FlushStopsAtFirstFailure(s.buffer, writesBefore, failing, k);
    MetaEventsAppend(step.effects, handlerOps);
    MetadataBypassesBuffer(step.effects + handlerOps);
    ProjectionsAppend(meta, flush);
    assert s.events[|s.events| - 1] == flush[k];
  }

  /**
   * The buffer is never reset: whatever it held before a request stays at
   * its front, and on allow with a healthy sink it is written out again,
   * ahead of this request's chunks.
   */
  lemma BufferCarriesOver(step: AuthStep, handlerOps: seq<Op>,
                          buffer: seq<Chunk>, writesBefore: nat, failing: set<nat>)
    ensures var s := Serve(step, handlerOps, buffer, writesBefore, failing);
            && |buffer| <= |s.buffer| && s.buffer[..|buffer|] == buffer
            && (step.result.err.None? && (forall j :: writesBefore <= j < writesBefore + |s.buffer| ==> j !in failing)
                ==> |buffer| <= |Delivered(s.events)| && Delivered(s.events)[..|buffer|] == buffer)
  {
    var s := Serve(step, handlerOps, buffer, writesBefore, failing);
    if step.result.err.None? {
      AllowShape(step, handlerOps, buffer, writesBefore, failing);
      if forall j :: writesBefore <= j < writesBefore + |s.buffer| ==> j !in failing {
        AllowDeliversBuffer(step, handlerOps, buffer, writesBefore, failing);
      }
    }
  }

  // ---------------------------------------------------------------------
  // The writer itself

  /**
   * interceptResponseWriter. `respBytes` is the buffer: the slices handed to
   * Write, kept themselves rather than copied (a `*[][]byte` in Go,
   * shared by every copy of the value); `rw` is the real sink
   * of the request being served, null until the first HandleFunc.
   */
  class InterceptResponseWriter {
    var rw: ResponseSink?
    const userHandler: UserHandler
    const authorizer: Authorizer
    var respBytes: seq<array<Byte>>

    /** New: an empty buffer and exactly the given callbacks. */
    constructor New(userHandler: UserHandler, authorizer: Authorizer)
      ensures respBytes == [] && rw == null
      ensures this.userHandler == userHandler && this.authorizer == authorizer
    {
      this.userHandler := userHandler;
      this.authorizer := authorizer;
      respBytes := [];
      rw := null;
    }

    /** Write: the slice `b` itself becomes the new last chunk; the full length, no error. */
    method Write(b: array<Byte>) returns (n: nat, err: Option<Error>)
      modifies this`respBytes
      ensures respBytes == old(respBytes) + [b]
      ensures n == b.Length && err == None
    {
      respBytes := respBytes + [b];
      n, err := b.Length, None;
    }

    /** SetCookie goes straight to the real sink; the buffer is untouched. */
    method SetCookie(cookie: Cookie)
      requires rw != null
      modifies rw
      ensures rw.log == old(rw.log) + [CookieSet(cookie)]
      ensures HeaderValues(rw.log, SetCookieKey) == HeaderValues(old(rw.log), SetCookieKey) + [CookieLine(cookie)]
      ensures respBytes == old(respBytes)
    {
      rw.SetCookie(cookie);
    }

    /** AddHeader goes straight to the real sink's headers, adding an entry. */
    method AddHeader(name: string, value: string)
      requires rw != null
      modifies rw
      ensures rw.log == old(rw.log) + [HeaderAdded(name, value)]
      ensures HeaderValues(rw.log, name) == HeaderValues(old(rw.log), name) + [Plain(value)]
      ensures respBytes == old(respBytes)
    {
      rw.AddHeader(name, value);
    }

    /**
     * Carries out what a callback does with this writer, in order: each
     * Write hands over a new slice, which the buffer keeps; a copy changes
     * one of those slices in place.
     */
    method Perform(ops: seq<Op>)
      requires rw != null
      modifies this`respBytes, rw
      ensures |old(respBytes)| <= |respBytes| && respBytes[..|old(respBytes)|] == old(respBytes)
      ensures forall i :: |old(respBytes)| <= i < |respBytes| ==> fresh(respBytes[i])
      ensures Contents(respBytes) == old(Contents(respBytes)) + Buffered(ops)
      ensures rw.log == old(rw.log) + MetaEvents(ops)
    {
      var slices: seq<array<Byte>> := [];
      var k := 0;
      while k < |ops|
        invariant 0 <= k <= |ops|
        invariant respBytes == old(respBytes) + slices
        invariant forall i :: 0 <= i < |slices| ==> fresh(slices[i])
        invariant forall i, j :: 0 <= i < j < |slices| ==> slices[i] != slices[j]
        invariant Contents(slices) == Buffered(ops[..k])
        invariant rw.log == old(rw.log) + MetaEvents(ops[..k])
      {
        PrefixStep(ops, k);
        var added := PerformOne(ops[k], slices);
        AppendAssoc(old(respBytes), slices, added);
        AppendAssoc(old(rw.log), MetaEvents(ops[..k]), MetaEvents([ops[k]]));
        slices := slices + added;
        k := k + 1;
      }
      assert ops[..k] == ops;
      ContentsAppend(old(respBytes), slices);
    }

    /** A callback's Write of a new slice holding `bytes`. */
    method WriteFresh(bytes: Chunk) returns (a: array<Byte>)
      modifies this`respBytes
      ensures fresh(a) && a[..] == bytes
      ensures respBytes == old(respBytes) + [a]
    {
      a := new Byte[|bytes|](i requires 0 <= i < |bytes| => bytes[i]);
      assert a[..] == bytes;
      var _, _ := Write(a);
    }

    /**
     * One thing a callback does, given the slices it has written so far;
     * returns the new slice it wrote, if any.
     */
    method PerformOne(op: Op, slices: seq<array<Byte>>) returns (added: seq<array<Byte>>)
      requires rw != null
      requires forall i, j :: 0 <= i < j < |slices| ==> slices[i] != slices[j]
      modifies this`respBytes, rw, slices
      ensures |added| <= 1 && respBytes == old(respBytes) + added
      ensures forall i :: 0 <= i < |added| ==> fresh(added[i])
      ensures Contents(slices + added) == BufferStep(old(Contents(slices)), op)
      ensures rw.log == old(rw.log) + MetaEvents([op])
    {
      ghost var before := Contents(slices);
      added := [];
      match op {
        case Write(bytes) =>
          var a := WriteFresh(bytes);
          added := [a];
          ContentsAppend(slices, [a]);
          assert Contents([a]) == [a[..]];
          assert MetaEvents([op]) == [] by { assert [op][1..] == []; }
        case Overwrite(slice, bytes) =>
          if slice < |slices| {
            CopyIntoBuffer(slices, slice, bytes);
          }
          assert slices + added == slices;
          assert MetaEvents([op]) == [] by { assert [op][1..] == []; }
        case AddHeader(name, value) =>
          AddHeader(name, value);
          assert Contents(slices) == before;
          assert slices + added == slices;
          assert MetaEvents([op]) == [HeaderAdded(name, value)] by { assert [op][1..] == []; }
        case SetCookie(cookie) =>
          SetCookie(cookie);
          assert Contents(slices) == before;
          assert slices + added == slices;
          assert MetaEvents([op]) == [CookieSet(cookie)] by { assert [op][1..] == []; }
      }
    }

    /**
     * HandleFunc: bind the sink, run the authorizer; on error send one error
     * response and stop; otherwise run the user handler once and flush the
     * whole buffer in order, stopping at the first failed write. The bytes
     * flushed are those the buffered slices hold at flush time.
     */
    method HandleFunc(w: ResponseSink, r: Request)
      modifies this, w
      ensures rw == w
      ensures |old(respBytes)| <= |respBytes| && respBytes[..|old(respBytes)|] == old(respBytes)
      ensures var s := Serve(authorizer(r), userHandler(r), old(Contents(respBytes)),
                             |BodyWrites(old(w.log))|, w.failing);
              Contents(respBytes) == s.buffer && w.log == old(w.log) + s.events
    {
      ghost var log0, buf0, slices0 := w.log, Contents(respBytes), respBytes;
      rw := w;
      var step := authorizer(r);
      ghost var s := Serve(step, userHandler(r), buf0, |BodyWrites(log0)|, w.failing);
      Perform(step.effects);
      ghost var slices1 := respBytes;
      assert Contents(respBytes) == buf0 + Buffered(step.effects);
      if step.result.err.Some? {
        var msg := step.result.msg;
        if msg == "" {
          msg := step.result.err.value.text;
        }
        w.Error(msg, step.result.status);
        assert msg == DenyMessage(step.result.err.value, step.result.msg);
        AppendAssoc(log0, MetaEvents(step.effects), [ErrorSent(step.result.status, msg)]);
        assert w.log == log0 + s.events;
        return;
      }

      Perform(userHandler(r));
      KeepsPrefix(slices0, slices1, respBytes);
      AllowServed(log0, step, userHandler(r), buf0, w.failing);
      assert Contents(respBytes) == s.buffer;
      Flush(w, respBytes);
      assert w.log == log0 + s.events;
    }
  }

  /** A prefix of a prefix. */
  lemma KeepsPrefix<T>(a: seq<T>, b: seq<T>, c: seq<T>)
    requires |a| <= |b| && b[..|a|] == a
    requires |b| <= |c| && c[..|b|] == b
    ensures |a| <= |c| && c[..|a|] == a
  {
    assert c[..|a|] == c[..|b|][..|a|];
  }

  /** The bytes of two runs of slices. */
  lemma ContentsAppend(a: seq<array<Byte>>, b: seq<array<Byte>>)
    ensures Contents(a + b) == Contents(a) + Contents(b)
  {
    var l, r := Contents(a + b), Contents(a) + Contents(b);
    ContentsAt(a + b);
    ContentsAt(a);
    ContentsAt(b);
    forall i | 0 <= i < |l| ensures l[i] == r[i] {
      if i < |a| {
        assert (a + b)[i] == a[i];
      } else {
        assert (a + b)[i] == b[i - |a|];
      }
    }
  }

  lemma AppendAssoc<T>(a: seq<T>, b: seq<T>, c: seq<T>)
    ensures a + b + c == a + (b + c)
  {
  }

  /** Go's copy(a, bytes) into a slice that is kept elsewhere. */
  method CopyIntoSlice(a: array<Byte>, bytes: Chunk)
    modifies a
    ensures a[..] == CopyInto(old(a[..]), bytes)
  {
    var m := if a.Length < |bytes| then a.Length else |bytes|;
    forall i | 0 <= i < m {
      a[i] := bytes[i];
    }
  }

  /** copy(slices[k], bytes): one slice of the buffer changes, the others keep their bytes. */
  method CopyIntoBuffer(slices: seq<array<Byte>>, k: nat, bytes: Chunk)
    requires k < |slices|
    requires forall i, j :: 0 <= i < j < |slices| ==> slices[i] != slices[j]
    modifies slices[k]
    ensures Contents(slices) == old(Contents(slices))[k := CopyInto(old(Contents(slices))[k], bytes)]
  {
    ContentsAt(slices);
    CopyIntoSlice(slices[k], bytes);
    ContentsAt(slices);
  }

  /**
   * The flush loop of HandleFunc: write the slices to the sink one by one,
   * in order, as they are now, and stop at the first write that reports an
   * error.
   */
  method Flush(w: ResponseSink, slices: seq<array<Byte>>)
    modifies w
    ensures w.log == old(w.log) + FlushEvents(Contents(slices), |BodyWrites(old(w.log))|, w.failing)
  {
    var chunks := Contents(slices);
    ghost var start := |BodyWrites(w.log)|;
    ghost var target := w.log + FlushEvents(chunks, start, w.failing);
    var k := 0;
    while k < |chunks|
      invariant 0 <= k <= |chunks|
      invariant |BodyWrites(w.log)| == start + k
      invariant w.log + FlushEvents(chunks[k..], start + k, w.failing) == target
    {
      ghost var logBefore := w.log;
      var n, ok := w.Write(chunks[k]);
      BodyWritesAppend(logBefore, [BodyWrite(chunks[k], ok)]);
      FlushWriteStep(logBefore, chunks, k, start + k, w.failing, ok);
      if !ok {
        return;
      }
      k := k + 1;
    }
    assert chunks[k..] == [];
  }
}
