/*
 * The parts of net/http that the interceptor talks to: bytes and body
 * chunks, cookies, errors, the incoming request, and the real response
 * sink (an http.ResponseWriter). The sink is modelled as a log of the
 * events it received, in the order it received them, plus the write
 * indices at which its connection refuses a body write.
 */
module Http {

  newtype Byte = x: int | 0 <= x < 256

  /** One slice handed to Write. */
  type Chunk = seq<Byte>

  datatype Option<+T> = None | Some(value: T)

  /** An http.Cookie; expiry and the other attributes are not modelled. */
  datatype Cookie = Cookie(name: string, value: string)

  /** A Go error value; `text` is what its Error() method returns. */
  datatype Error = Error(text: string)

  /** The incoming request, as far as callbacks look at it: its cookies. */
  datatype Request = Request(cookies: seq<Cookie>)

  /** What the real sink receives. */
  datatype Event =
    | HeaderAdded(name: string, value: string)  // Header().Add(name, value)
    | CookieSet(cookie: Cookie)                 // http.SetCookie(w, cookie)
    | ErrorSent(status: int, message: string)   // http.Error(w, message, status)
    | BodyWrite(chunk: Chunk, ok: bool)         // w.Write(chunk), and whether it succeeded

  /** Header-level events, the ones that never carry body bytes. */
  predicate IsMeta(e: Event) {
    e.HeaderAdded? || e.CookieSet?
  }

  /** Every chunk the sink was asked to write, in order, failed or not. */
  function BodyWrites(log: seq<Event>): seq<Chunk> {
    if log == [] then []
    else (if log[0].BodyWrite? then [log[0].chunk] else []) + BodyWrites(log[1..])
  }

  /** The chunks the sink accepted, in order: what went on the wire. */
  function Delivered(log: seq<Event>): seq<Chunk> {
    if log == [] then []
    else (if log[0].BodyWrite? && log[0].ok then [log[0].chunk] else []) + Delivered(log[1..])
  }

  /** The error responses the sink was asked to emit. */
  function ErrorsSent(log: seq<Event>): seq<Event> {
    if log == [] then []
    else (if log[0].ErrorSent? then [log[0]] else []) + ErrorsSent(log[1..])
  }

  /**
   * The status line the client sees: set by the first error response or
   * body write, whichever comes first (a body write implies 200), and 200
   * when there is neither.
   */
  function StatusCode(log: seq<Event>): (code: int)
    ensures (forall i :: 0 <= i < |log| ==> IsMeta(log[i])) ==> code == 200
    ensures forall k :: FirstNonMeta(log, k) ==> code == if log[k].ErrorSent? then log[k].status else 200
  {
    if log == [] then 200
    else if log[0].ErrorSent? then log[0].status
    else if log[0].BodyWrite? then 200
    else
      assert forall k :: FirstNonMeta(log, k) ==> k >= 1 && FirstNonMeta(log[1..], k - 1) by {
        forall k | FirstNonMeta(log, k) ensures k >= 1 && FirstNonMeta(log[1..], k - 1) {
          forall i | 0 <= i < k - 1 ensures IsMeta(log[1..][i]) {
            assert log[1..][i] == log[i + 1];
          }
        }
      }
      assert (forall i :: 0 <= i < |log| ==> IsMeta(log[i])) ==> (forall i :: 0 <= i < |log| - 1 ==> IsMeta(log[1..][i])) by {
        if forall i :: 0 <= i < |log| ==> IsMeta(log[i]) {
          forall i | 0 <= i < |log| - 1 ensures IsMeta(log[1..][i]) {
            assert log[1..][i] == log[i + 1];
          }
        }
      }
      StatusCode(log[1..])
  }

  /** Event k is the first one of the log that is not header-level. */
  predicate FirstNonMeta(log: seq<Event>, k: int) {
    0 <= k < |log| && !IsMeta(log[k]) && forall i :: 0 <= i < k ==> IsMeta(log[i])
  }

  // ---------------------------------------------------------------------
  // The header map

  /** A token character of RFC 7230, the characters a header name is made of. */
  predicate IsTokenChar(c: char) {
    || 'a' <= c <= 'z' || 'A' <= c <= 'Z' || '0' <= c <= '9'
    || c == '!' || c == '#' || c == '$' || c == '%' || c == '&' || c == '\''
    || c == '*' || c == '+' || c == '-' || c == '.' || c == '^' || c == '_'
    || c == '`' || c == '|' || c == '~'
  }

  predicate IsToken(name: string) {
    forall i :: 0 <= i < |name| ==> IsTokenChar(name[i])
  }

  function ToUpper(c: char): char {
    if 'a' <= c <= 'z' then (c as int - 32) as char else c
  }

  function ToLower(c: char): char {
    if 'A' <= c <= 'Z' then (c as int + 32) as char else c
  }

  /** Character i of a canonical key: upper case first and after '-', lower case elsewhere. */
  function KeyChar(name: string, i: nat): char
    requires i < |name|
  {
    if i == 0 || name[i - 1] == '-' then ToUpper(name[i]) else ToLower(name[i])
  }

  /**
   * textproto.CanonicalMIMEHeaderKey, the key under which Header().Add files
   * a value: a name made only of token characters gets its first letter and
   * every letter after a '-' in upper case and all others in lower case; any
   * other name is used as it is.
   */
  function CanonicalKey(name: string): (key: string)
    ensures |key| == |name|
    ensures !IsToken(name) ==> key == name
  {
    if IsToken(name) then seq(|name|, i requires 0 <= i < |name| => KeyChar(name, i))
    else name
  }

  /** Character by character, the key of a token name. */
  lemma CanonicalKeyChars(name: string)
    requires IsToken(name)
    ensures forall i :: 0 <= i < |name| ==> CanonicalKey(name)[i] == KeyChar(name, i)
  {
  }

  /** Canonicalising a key a second time changes nothing. */
  lemma CanonicalKeyIdempotent(name: string)
    ensures CanonicalKey(CanonicalKey(name)) == CanonicalKey(name)
  {
    var key := CanonicalKey(name);
    if IsToken(name) {
      CanonicalKeyChars(name);
      forall i | 0 <= i < |key|
        ensures IsTokenChar(key[i]) && (key[i] == '-' <==> name[i] == '-')
      {
        assert IsTokenChar(name[i]);
      }
      var again := CanonicalKey(key);
      CanonicalKeyChars(key);
      forall i | 0 <= i < |key| ensures again[i] == key[i] {
        assert again[i] == KeyChar(key, i);
      }
    }
  }

  /** One character of the key, for two names that agree up to case at i and just before it. */
  lemma KeyCharIgnoresCase(a: string, b: string, i: nat)
    requires i < |a| == |b|
    requires ToLower(a[i]) == ToLower(b[i])
    requires i > 0 ==> ToLower(a[i - 1]) == ToLower(b[i - 1])
    ensures KeyChar(a, i) == KeyChar(b, i)
  {
  }

  /** Two token names that differ only in the case of letters share one key. */
  lemma CanonicalKeyIgnoresCase(a: string, b: string)
    requires |a| == |b| && IsToken(a) && IsToken(b)
    requires forall i :: 0 <= i < |a| ==> ToLower(a[i]) == ToLower(b[i])
    ensures CanonicalKey(a) == CanonicalKey(b)
  {
    var ka, kb := CanonicalKey(a), CanonicalKey(b);
    CanonicalKeyChars(a);
    CanonicalKeyChars(b);
    forall i | 0 <= i < |a| ensures ka[i] == kb[i] {
      KeyCharIgnoresCase(a, b, i);
    }
  }

  /** The key http.SetCookie adds its line under. */
  const SetCookieKey := "Set-Cookie"

  /**
   * One value of the header map: a value given to Header().Add, or the
   * Set-Cookie line http.SetCookie renders for a cookie (the rendering
   * itself is not modelled).
   */
  datatype FieldValue = Plain(text: string) | CookieLine(cookie: Cookie)

  /** The values one event files under the key of `name`. */
  function FieldsOf(e: Event, name: string): seq<FieldValue> {
    match e
    case HeaderAdded(n, v) => if CanonicalKey(n) == CanonicalKey(name) then [Plain(v)] else []
    case CookieSet(c) => if CanonicalKey(name) == SetCookieKey then [CookieLine(c)] else []
    case _ => []
  }

  /** The values the sink's header map holds under the key of `name`, in the order they were added. */
  function HeaderValues(log: seq<Event>, name: string): seq<FieldValue> {
    if log == [] then [] else FieldsOf(log[0], name) + HeaderValues(log[1..], name)
  }

  /**
   * Adding a header keeps every value already present: the new value goes
   * after the existing ones under its key, and every other key is untouched.
   */
  lemma {:induction false} AddHeaderKeepsValues(log: seq<Event>, name: string, value: string, other: string)
    ensures HeaderValues(log + [HeaderAdded(name, value)], other)
         == HeaderValues(log, other) + (if CanonicalKey(other) == CanonicalKey(name) then [Plain(value)] else [])
  {
    var e := [HeaderAdded(name, value)];
    if log == [] {
      assert log + e == e;
      assert e[1..] == [];
    } else {
      assert (log + e)[0] == log[0];
      assert (log + e)[1..] == log[1..] + e;
      AddHeaderKeepsValues(log[1..], name, value, other);
    }
  }

  /**
   * Setting a cookie adds one Set-Cookie line after those already present
   * and leaves every other key untouched.
   */
  lemma {:induction false} SetCookieAddsLine(log: seq<Event>, cookie: Cookie, other: string)
    ensures HeaderValues(log + [CookieSet(cookie)], other)
         == HeaderValues(log, other) + (if CanonicalKey(other) == SetCookieKey then [CookieLine(cookie)] else [])
  {
    var e := [CookieSet(cookie)];
    if log == [] {
      assert log + e == e;
      assert e[1..] == [];
    } else {
      assert (log + e)[0] == log[0];
      assert (log + e)[1..] == log[1..] + e;
      SetCookieAddsLine(log[1..], cookie, other);
    }
  }

  /** "Set-Cookie" is its own key. */
  lemma SetCookieKeyIsCanonical()
    ensures CanonicalKey(SetCookieKey) == SetCookieKey
  {
    var key := CanonicalKey(SetCookieKey);
    assert forall i :: 0 <= i < |SetCookieKey| ==> IsTokenChar(SetCookieKey[i]);
    CanonicalKeyChars(SetCookieKey);
    assert key[0] == 'S' && key[1] == 'e' && key[2] == 't' && key[3] == '-' && key[4] == 'C';
    assert key[5] == 'o' && key[6] == 'o' && key[7] == 'k' && key[8] == 'i' && key[9] == 'e';
  }

  /** The body bytes of a sequence of chunks. */
  function Concat(chunks: seq<Chunk>): seq<Byte> {
    if chunks == [] then [] else chunks[0] + Concat(chunks[1..])
  }

  lemma {:induction false} BodyWritesAppend(a: seq<Event>, b: seq<Event>)
    ensures BodyWrites(a + b) == BodyWrites(a) + BodyWrites(b)
  {
    if a == [] {
      assert a + b == b;
    } else {
      assert (a + b)[0] == a[0];
      assert (a + b)[1..] == a[1..] + b;
      BodyWritesAppend(a[1..], b);
    }
  }

  lemma {:induction false} DeliveredAppend(a: seq<Event>, b: seq<Event>)
    ensures Delivered(a + b) == Delivered(a) + Delivered(b)
  {
    if a == [] {
      assert a + b == b;
    } else {
      assert (a + b)[0] == a[0];
      assert (a + b)[1..] == a[1..] + b;
      DeliveredAppend(a[1..], b);
    }
  }

  lemma {:induction false} ErrorsSentAppend(a: seq<Event>, b: seq<Event>)
    ensures ErrorsSent(a + b) == ErrorsSent(a) + ErrorsSent(b)
  {
    if a == [] {
      assert a + b == b;
    } else {
      assert (a + b)[0] == a[0];
      assert (a + b)[1..] == a[1..] + b;
      ErrorsSentAppend(a[1..], b);
    }
  }

  /** The three projections of a log distribute over concatenation. */
  lemma ProjectionsAppend(a: seq<Event>, b: seq<Event>)
    ensures BodyWrites(a + b) == BodyWrites(a) + BodyWrites(b)
    ensures Delivered(a + b) == Delivered(a) + Delivered(b)
    ensures ErrorsSent(a + b) == ErrorsSent(a) + ErrorsSent(b)
  {
    BodyWritesAppend(a, b);
    DeliveredAppend(a, b);
    ErrorsSentAppend(a, b);
  }

  /** A log of header-level events carries no body write and no error response. */
  lemma {:induction false} MetaOnlyLog(log: seq<Event>)
    requires forall i :: 0 <= i < |log| ==> IsMeta(log[i])
    ensures BodyWrites(log) == [] && Delivered(log) == [] && ErrorsSent(log) == []
  {
    if log != [] {
      assert IsMeta(log[0]);
      MetaOnlyLog(log[1..]);
    }
  }

  /** Concatenating the bytes of two runs of chunks. */
  lemma {:induction false} ConcatAppend(a: seq<Chunk>, b: seq<Chunk>)
    ensures Concat(a + b) == Concat(a) + Concat(b)
  {
    if a == [] {
      assert a + b == b;
    } else {
      assert (a + b)[0] == a[0];
      assert (a + b)[1..] == a[1..] + b;
      ConcatAppend(a[1..], b);
    }
  }

  /**
   * The real response sink (http.ResponseWriter). `failing` holds the
   * indices (counting every body write ever attempted on this sink, from
   * 0) at which Write reports an error, e.g. because the client went away.
   */
  class ResponseSink {
    var log: seq<Event>
    const failing: set<nat>

    constructor (failing: set<nat>)
      ensures log == [] && this.failing == failing
    {
      log := [];
      this.failing := failing;
    }

    /** Header().Add(name, value): one more entry, existing ones kept. */
    method AddHeader(name: string, value: string)
      modifies this
      ensures log == old(log) + [HeaderAdded(name, value)]
      ensures HeaderValues(log, name) == HeaderValues(old(log), name) + [Plain(value)]
    {
      log := log + [HeaderAdded(name, value)];
      AddHeaderKeepsValues(old(log), name, value, name);
    }

    /** http.SetCookie(w, cookie), taken as one header event. */
    method SetCookie(cookie: Cookie)
      modifies this
      ensures log == old(log) + [CookieSet(cookie)]
      ensures HeaderValues(log, SetCookieKey) == HeaderValues(old(log), SetCookieKey) + [CookieLine(cookie)]
    {
      log := log + [CookieSet(cookie)];
      SetCookieAddsLine(old(log), cookie, SetCookieKey);
      SetCookieKeyIsCanonical();
    }

    /** http.Error(w, message, status), taken as one event. */
    method Error(message: string, status: int)
      modifies this
      ensures log == old(log) + [ErrorSent(status, message)]
    {
      log := log + [ErrorSent(status, message)];
    }

    /**
     * Write(chunk): the attempt is recorded either way; it fails exactly
     * when its index is in `failing`, and then reports 0 bytes written.
     */
    method Write(chunk: Chunk) returns (n: nat, ok: bool)
      modifies this
      ensures ok <==> |BodyWrites(old(log))| !in failing
      ensures n == if ok then |chunk| else 0
      ensures log == old(log) + [BodyWrite(chunk, ok)]
    {
      ok := |BodyWrites(log)| !in failing;
      n := if ok then |chunk| else 0;
      log := log + [BodyWrite(chunk, ok)];
    }
  }
}
