/** The middleware stack around the router's mux, run on any handler behaviour. */
module MiddlewareStack {
  import opened Wrappers
  import opened ResponseWriters

  /** What a handler does to its writer, one call after the other. */
  datatype Action = Header(code: int) | Body

  datatype Middleware =
    | Recovery
    | SecureHeaders
    | Logging
    | RedisRateLimit(limited: bool)  // what the limiter decides on this request
    | AuditTrail

  /** A mux whose handler runs a script and then returns or panics, or a handler inside a middleware. */
  datatype Handler =
    | Mux(script: seq<Action>, panics: bool)
    | Wrap(mw: Middleware, next: Handler)

  // ---------- Building the stack ----------

  /** The first middleware of the list is the outermost. */
  function Layers(mw: seq<Middleware>, h: Handler): Handler {
    if mw == [] then h else Wrap(mw[0], Layers(mw[1..], h))
  }

  method Chain(mux: Handler, mw: seq<Middleware>) returns (h: Handler)
    ensures h == Layers(mw, mux)
  {
    h := mux;
    for i := |mw| downto 0
      invariant h == Layers(mw[i..], mux)
    {
      h := Wrap(mw[i], h);
      assert mw[i..][1..] == mw[i + 1..];
    }
    assert mw[0..] == mw;
  }

  /** The stack from the outside in; the audit trail and the rate limiter are optional. */
  function Stack(mux: Handler, limiter: Option<bool>, audit: bool): Handler {
    var inner := Wrap(Recovery, Wrap(SecureHeaders, Wrap(Logging, mux)));
    var limited := if limiter.Some? then Wrap(RedisRateLimit(limiter.value), inner) else inner;
    if audit then Wrap(AuditTrail, limited) else limited
  }

  method NewRouter(mux: Handler, limiter: Option<bool>, audit: bool) returns (h: Handler)
    ensures h == Stack(mux, limiter, audit)
  {
    var middlewares := [Recovery, SecureHeaders, Logging];
    if limiter.Some? {
      middlewares := [RedisRateLimit(limiter.value)] + middlewares;
    }
    if audit {
      middlewares := [AuditTrail] + middlewares;
    }
    h := Chain(mux, middlewares);
    LayersOfThree(mux);
    ghost var inner := [Recovery, SecureHeaders, Logging];
    assert limiter.Some? ==> ([RedisRateLimit(limiter.value)] + inner)[1..] == inner;
    assert audit ==>
        middlewares[1..] == if limiter.Some? then [RedisRateLimit(limiter.value)] + inner else inner;
  }

  lemma LayersOfThree(mux: Handler)
    ensures Layers([Recovery, SecureHeaders, Logging], mux) == Wrap(Recovery, Wrap(SecureHeaders, Wrap(Logging, mux)))
  {
    assert [Logging][1..] == [];
    assert Layers([Logging], mux) == Wrap(Logging, mux);
    assert [SecureHeaders, Logging][1..] == [Logging];
    assert Layers([SecureHeaders, Logging], mux) == Wrap(SecureHeaders, Wrap(Logging, mux));
    assert [Recovery, SecureHeaders, Logging][1..] == [SecureHeaders, Logging];
  }

  // ---------- Serving a request ----------

  /**
   The writer afterwards, whether a panic is under way, the statuses logged and audited, and whether the
   security headers were set before anything was sent.
   */
  datatype Served = Served(writer: Writer, panicked: bool, logged: seq<int>, audited: seq<int>, secured: bool)

  /** A script stops at the first call that panics. */
  function Play(w: Writer, script: seq<Action>): (r: (Writer, bool))
    ensures Depth(r.0) == Depth(w)
    decreases |script|
  {
    if script == [] then (w, false)
    else
      match script[0]
      case Body => Play(Write(w), script[1..])
      case Header(code) =>
        var (w', panics) := WriteHeader(w, code);
        if panics then (w', true) else Play(w', script[1..])
  }

  /** http.Error: a header and a body. */
  function HttpError(w: Writer, code: int): (r: (Writer, bool))
    ensures Depth(r.0) == Depth(w)
  {
    Play(w, [Header(code), Body])
  }

  function Serve(h: Handler, w: Writer): (r: Served)
    ensures Depth(r.writer) == Depth(w)
    decreases h
  {
    match h
    case Mux(script, panics) =>
      var (w', crashed) := Play(w, script);
      Served(w', crashed || panics, [], [], false)
    case Wrap(Recovery, next) =>
      var r := Serve(next, w);
      if !r.panicked then r
      else
        var (w', crashed) := HttpError(r.writer, INTERNAL_SERVER_ERROR);
        r.(writer := w', panicked := crashed)
    case Wrap(SecureHeaders, next) => Serve(next, w).(secured := true)
    case Wrap(Logging, next) =>
      var r := Serve(next, NewRecorder(w));
      r.(writer := r.writer.inner, logged := if r.panicked then r.logged else r.logged + [r.writer.status])
    case Wrap(RedisRateLimit(limited), next) =>
      if !limited then Serve(next, w)
      else
        var (w', crashed) := HttpError(w, TOO_MANY_REQUESTS);
        Served(w', crashed, [], [], false)
    case Wrap(AuditTrail, next) =>
      var r := Serve(next, NewRecorder(w));
      r.(writer := r.writer.inner, audited := if r.panicked then r.audited else r.audited + [r.writer.status])
  }

  // ---------- What the handler's script says ----------

  /** The first header code a script sends; a body sends 200. */
  function FirstCode(script: seq<Action>): Option<int> {
    if script == [] then None
    else
      match script[0]
      case Header(code) => Some(code)
      case Body => Some(OK)
  }

  /** A header that is no status comes before any final one. */
  predicate Crashes(script: seq<Action>) {
    script != [] && script[0].Header? && !IsFinal(script[0].code) &&
    (!IsStatus(script[0].code) || Crashes(script[1..]))
  }

  ghost predicate Committed(w: Writer) {
    match w
    case Conn(committed, _) => committed.Some?
    case Recorder(inner, _, _) => Committed(inner)
  }

  lemma {:induction false} HeaderCommits(w: Writer, code: int)
    ensures WriteHeader(w, code).1 <==> !Committed(w) && !IsStatus(code)
    ensures Committed(WriteHeader(w, code).0) <==> Committed(w) || IsFinal(code)
  {
    if w.Conn? {
    } else {
      HeaderCommits(w.inner, code);
    }
  }

  lemma {:induction false} WriteCommits(w: Writer)
    ensures Committed(Write(w))
    decreases Depth(w)
  {
    if w.Conn? {
    } else {
      HeaderCommits(w, OK);
      var ready := if w.wroteHeader then w else WriteHeader(w, OK).0;
      WriteCommits(ready.inner);
    }
  }

  lemma {:induction false} PlayCrashes(w: Writer, script: seq<Action>)
    ensures Play(w, script).1 <==> !Committed(w) && Crashes(script)
    decreases |script|
  {
    if script == [] {
    } else {
      match script[0]
      case Body =>
        WriteCommits(w);
        PlayCrashes(Write(w), script[1..]);
      case Header(code) =>
        HeaderCommits(w, code);
        PlayCrashes(WriteHeader(w, code).0, script[1..]);
    }
  }

  lemma {:induction false} PlaySyncs(w: Writer, script: seq<Action>, first: Option<int>)
    requires Synced(w, first)
    ensures Synced(Play(w, script).0, if first.Some? then first else FirstCode(script))
    decreases |script|
  {
    if script == [] {
    } else {
      match script[0]
      case Body =>
        WriteSyncs(w, first);
        PlaySyncs(Write(w), script[1..], FirstOf(first, OK));
      case Header(code) =>
        WriteHeaderSyncs(w, code, first);
        PlaySyncs(WriteHeader(w, code).0, script[1..], FirstOf(first, code));
    }
  }

  lemma HttpErrorSyncs(w: Writer, code: int, first: Option<int>)
    requires Synced(w, first) && IsFinal(code)
    ensures Synced(HttpError(w, code).0, FirstOf(first, code)) && !HttpError(w, code).1
  {
    PlaySyncs(w, [Header(code), Body], first);
    PlayCrashes(w, [Header(code), Body]);
  }

  // ---------- What reaches the connection ----------

  lemma {:induction false} HeaderReaches(w: Writer, code: int)
    ensures Base(WriteHeader(w, code).0) == WriteHeader(Base(w), code).0
    ensures WriteHeader(w, code).1 == WriteHeader(Base(w), code).1
  {
    if w.Conn? {
    } else {
      HeaderReaches(w.inner, code);
    }
  }

  lemma {:induction false} BodyReaches(w: Writer)
    ensures Base(Write(w)) == Write(Base(w))
    decreases Depth(w)
  {
    if w.Conn? {
    } else {
      HeaderReaches(w, OK);
      var ready := if w.wroteHeader then w else WriteHeader(w, OK).0;
      BodyReaches(ready.inner);
      BaseStatus(w);
    }
  }

  /** Recorders pass every call on: the connection sees what it would see without them. */
  lemma {:induction false} PlayReaches(w: Writer, script: seq<Action>)
    ensures Base(Play(w, script).0) == Play(Base(w), script).0 && Play(w, script).1 == Play(Base(w), script).1
    decreases |script|
  {
    if script == [] {
    } else {
      match script[0]
      case Body =>
        BodyReaches(w);
        PlayReaches(Write(w), script[1..]);
      case Header(code) =>
        HeaderReaches(w, code);
        PlayReaches(WriteHeader(w, code).0, script[1..]);
    }
  }

  /** The connection after the handler ran on it bare, and after a panic the error page of the recovery. */
  function Bare(mux: Handler, limiter: Option<bool>, conn: Writer): Writer
    requires mux.Mux?
  {
    if limiter == Some(true) then HttpError(conn, TOO_MANY_REQUESTS).0
    else
      var (played, crashed) := Play(conn, mux.script);
      if crashed || mux.panics then HttpError(played, INTERNAL_SERVER_ERROR).0 else played
  }

  lemma LoggedStackReaches(mux: Handler, w: Writer)
    requires mux.Mux?
    ensures Base(Serve(Stack(mux, None, false), w).writer) == Bare(mux, None, Base(w))
  {
    var recorder := NewRecorder(w);
    var (played, crashed) := Play(recorder, mux.script);
    PlayReaches(recorder, mux.script);
    assert Serve(mux, recorder) == Served(played, crashed || mux.panics, [], [], false);
    var logging := Serve(Wrap(Logging, mux), w);
    assert logging.writer == played.inner && logging.panicked == (crashed || mux.panics);
    assert Serve(Wrap(SecureHeaders, Wrap(Logging, mux)), w) == logging.(secured := true);
    PlayReaches(played.inner, [Header(INTERNAL_SERVER_ERROR), Body]);
  }

  /** Whatever the handler does, the stack adds nothing to the response but the pages of limiter and recovery. */
  lemma StackReaches(mux: Handler, limiter: Option<bool>, audit: bool, w: Writer)
    requires mux.Mux?
    ensures Base(Serve(Stack(mux, limiter, audit), w).writer) == Bare(mux, limiter, Base(w))
  {
    var outer := if audit then NewRecorder(w) else w;
    LoggedStackReaches(mux, outer);
    PlayReaches(outer, [Header(TOO_MANY_REQUESTS), Body]);
    assert Stack(mux, limiter, audit) ==
        if audit then Wrap(AuditTrail, Stack(mux, limiter, false)) else Stack(mux, limiter, false);
  }

  /** Every response carries the security headers, error pages of the recovery included, except the limiter's. */
  lemma SecuredUnlessLimited(mux: Handler, limiter: Option<bool>, audit: bool, w: Writer)
    requires mux.Mux?
    ensures Serve(Stack(mux, limiter, audit), w).secured <==> limiter != Some(true)
  {
    var outer := if audit then NewRecorder(w) else w;
    var inner := Stack(mux, None, false);
    assert Serve(inner, outer).secured;
    assert Stack(mux, limiter, audit) ==
        if audit then Wrap(AuditTrail, Stack(mux, limiter, false)) else Stack(mux, limiter, false);
  }

  /** The first final code a script sends before it breaks off. */
  function FirstFinal(script: seq<Action>): Option<int> {
    if script == [] then None
    else
      match script[0]
      case Body => Some(OK)
      case Header(code) =>
        if IsFinal(code) then Some(code) else if IsStatus(code) then FirstFinal(script[1..]) else None
  }

  lemma {:induction false} PlayCommits(conn: Writer, script: seq<Action>)
    requires conn.Conn?
    ensures Play(conn, script).0.Conn?
    ensures Play(conn, script).0.committed == if conn.committed.Some? then conn.committed else FirstFinal(script)
    ensures Play(conn, script).1 <==> conn.committed.None? && Crashes(script)
    decreases |script|
  {
    if script == [] {
    } else {
      match script[0]
      case Body => PlayCommits(Write(conn), script[1..]);
      case Header(code) => PlayCommits(WriteHeader(conn, code).0, script[1..]);
    }
  }

  /**
   The client gets 429 when it is limited, else the first final code of the handler, else 500 after a panic,
   else 200.
   */
  lemma ClientGets(mux: Handler, limiter: Option<bool>, audit: bool)
    requires mux.Mux?
    ensures ClientStatus(Serve(Stack(mux, limiter, audit), Conn(None, [])).writer) ==
              if limiter == Some(true) then 429
              else if FirstFinal(mux.script).Some? then FirstFinal(mux.script).value
              else if mux.panics || Crashes(mux.script) then 500
              else 200
  {
    var conn := Conn(None, []);
    var r := Serve(Stack(mux, limiter, audit), conn);
    StackReaches(mux, limiter, audit, conn);
    BaseStatus(r.writer);
    PlayCommits(conn, mux.script);
    PlayCommits(conn, [Header(TOO_MANY_REQUESTS), Body]);
    PlayCommits(Play(conn, mux.script).0, [Header(INTERNAL_SERVER_ERROR), Body]);
  }

  // ---------- The stack as a whole ----------

  /** The first header code sent to the client by the request, through handler, recovery or limiter. */
  function RequestCode(mux: Handler, limiter: Option<bool>): Option<int>
    requires mux.Mux?
  {
    if limiter == Some(true) then Some(TOO_MANY_REQUESTS)
    else if FirstCode(mux.script).Some? then FirstCode(mux.script)
    else if mux.panics then Some(INTERNAL_SERVER_ERROR)
    else None
  }

  /** The stack below the limiter: everything stays in sync, panics end here, and a log line is their absence. */
  lemma InnerStackServes(mux: Handler, w: Writer)
    requires mux.Mux? && Synced(w, None)
    ensures var r := Serve(Stack(mux, None, false), w);
            && !r.panicked
            && r.audited == []
            && Synced(r.writer, RequestCode(mux, None))
            && r.logged == if mux.panics || Crashes(mux.script) then []
                           else [if FirstCode(mux.script).Some? then FirstCode(mux.script).value else OK]
  {
    var recorder := NewRecorder(w);
    PlaySyncs(recorder, mux.script, None);
    PlayCrashes(recorder, mux.script);
    NothingCommitted(w);
    var (played, crashed) := Play(recorder, mux.script);
    assert Serve(mux, recorder) == Served(played, crashed || mux.panics, [], [], false);
    var logging := Serve(Wrap(Logging, mux), w);
    assert logging.writer == played.inner && logging.panicked == (crashed || mux.panics);
    assert Serve(Wrap(SecureHeaders, Wrap(Logging, mux)), w) == logging.(secured := true);
    if mux.panics || Crashes(mux.script) {
      HttpErrorSyncs(played.inner, INTERNAL_SERVER_ERROR, FirstCode(mux.script));
    }
  }

  lemma {:induction false} NothingCommitted(w: Writer)
    requires Synced(w, None)
    ensures !Committed(w)
  {
    if w.Conn? {
    } else {
      NothingCommitted(w.inner);
    }
  }

  lemma LimitedStackServes(mux: Handler, limiter: Option<bool>, w: Writer)
    requires mux.Mux? && Synced(w, None)
    ensures var r := Serve(Stack(mux, limiter, false), w);
            && !r.panicked
            && r.audited == []
            && Synced(r.writer, RequestCode(mux, limiter))
            && r.logged == if limiter == Some(true) then [] else Serve(Stack(mux, None, false), w).logged
  {
    InnerStackServes(mux, w);
    if limiter == Some(true) {
      HttpErrorSyncs(w, TOO_MANY_REQUESTS, None);
    }
  }

  /**
   For every handler behaviour there is exactly one audit record, and its status is the first header
   code sent to the client, or 200 if none was.
   */
  lemma AuditedOnce(mux: Handler, limiter: Option<bool>)
    requires mux.Mux?
    ensures var r := Serve(Stack(mux, limiter, true), Conn(None, []));
            && !r.panicked
            && r.audited == [if RequestCode(mux, limiter).Some? then RequestCode(mux, limiter).value else OK]
  {
    LimitedStackServes(mux, limiter, NewRecorder(Conn(None, [])));
  }

  /**
   The record names the status the client ends up with exactly when that first code is a final one: an
   informational code, or one that is no status, is recorded although the client gets another.
   */
  lemma AuditAgreesWithClient(mux: Handler, limiter: Option<bool>)
    requires mux.Mux?
    ensures var r := Serve(Stack(mux, limiter, true), Conn(None, []));
            r.audited == [ClientStatus(r.writer)] <==>
              RequestCode(mux, limiter).None? || IsFinal(RequestCode(mux, limiter).value)
  {
    AuditedOnce(mux, limiter);
    LimitedStackServes(mux, limiter, NewRecorder(Conn(None, [])));
    var r := Serve(Stack(mux, limiter, true), Conn(None, []));
    ClientStatusIsFinal(r.writer, RequestCode(mux, limiter));
  }

  /** The access log has the audited status exactly when the handler ran and did not panic; otherwise it has nothing. */
  lemma LogAgreesWithAudit(mux: Handler, limiter: Option<bool>)
    requires mux.Mux?
    ensures var r := Serve(Stack(mux, limiter, true), Conn(None, []));
            && (r.logged == r.audited <==> limiter != Some(true) && !mux.panics && !Crashes(mux.script))
            && (r.logged != r.audited ==> r.logged == [])
  {
    AuditedOnce(mux, limiter);
    LimitedStackServes(mux, limiter, NewRecorder(Conn(None, [])));
    InnerStackServes(mux, NewRecorder(Conn(None, [])));
  }
}
