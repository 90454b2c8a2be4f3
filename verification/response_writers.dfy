/**
 Response writers: the connection, and recorders around it that remember the status. The connection
 behaves as net/http documents: the first final header counts, 1xx headers other than 101 are only
 announced, later ones are dropped, and a code that is no status panics while no header was sent.
 */
module ResponseWriters {
  import opened Wrappers

  const OK := 200
  const TOO_MANY_REQUESTS := 429
  const INTERNAL_SERVER_ERROR := 500

  predicate IsStatus(code: int) {
    100 <= code <= 999
  }

  /** A code that ends the header of a response: 101 or 200 and up. */
  predicate IsFinal(code: int) {
    code == 101 || 200 <= code <= 999
  }

  /** A connection, or a recorder around another writer. */
  datatype Writer =
    | Conn(committed: Option<int>, announced: seq<int>)
    | Recorder(inner: Writer, status: int, wroteHeader: bool)

  function Depth(w: Writer): nat {
    match w
    case Conn(_, _) => 0
    case Recorder(inner, _, _) => 1 + Depth(inner)
  }

  function NewRecorder(inner: Writer): Writer {
    Recorder(inner, OK, false)
  }

  /** The writer afterwards, and whether the call panicked. */
  function WriteHeader(w: Writer, code: int): (r: (Writer, bool))
    ensures Depth(r.0) == Depth(w)
  {
    match w
    case Conn(committed, announced) =>
      if committed.Some? then (w, false)
      else if !IsStatus(code) then (w, true)
      else if !IsFinal(code) then (Conn(None, announced + [code]), false)
      else (Conn(Some(code), announced), false)
    case Recorder(inner, status, wroteHeader) =>
      var (inner', panics) := WriteHeader(inner, code);
      (Recorder(inner', if wroteHeader then status else code, true), panics)
  }

  function Write(w: Writer): (w': Writer)
    ensures Depth(w') == Depth(w)
    decreases Depth(w)
  {
    match w
    case Conn(committed, announced) => if committed.Some? then w else Conn(Some(OK), announced)
    case Recorder(_, _, wroteHeader) =>
      var ready := if wroteHeader then w else WriteHeader(w, OK).0;
      ready.(inner := Write(ready.inner))
  }

  /** The status the client ends up with; the server sends 200 when the handler sent nothing. */
  function ClientStatus(w: Writer): int {
    match w
    case Conn(committed, _) => if committed.Some? then committed.value else OK
    case Recorder(inner, _, _) => ClientStatus(inner)
  }

  /** The connection under all recorders. */
  function Base(w: Writer): Writer {
    match w
    case Conn(_, _) => w
    case Recorder(inner, _, _) => Base(inner)
  }

  lemma {:induction false} BaseStatus(w: Writer)
    ensures Base(w).Conn? && ClientStatus(w) == ClientStatus(Base(w))
  {
    if w.Conn? {
    } else {
      BaseStatus(w.inner);
    }
  }

  // ---------- Recorders agree ----------

  /** Every recorder holds the first code that passed, and the connection has committed to it if it is final. */
  predicate Synced(w: Writer, first: Option<int>) {
    match w
    case Conn(committed, announced) =>
      && (committed.Some? ==> IsFinal(committed.value))
      && (first.None? ==> committed.None? && announced == [])
      && (first.Some? && IsFinal(first.value) ==> committed == first)
    case Recorder(inner, status, wroteHeader) =>
      && wroteHeader == first.Some?
      && status == (if first.Some? then first.value else OK)
      && Synced(inner, first)
  }

  function FirstOf(first: Option<int>, code: int): Option<int> {
    if first.Some? then first else Some(code)
  }

  lemma {:induction false} WriteHeaderSyncs(w: Writer, code: int, first: Option<int>)
    requires Synced(w, first)
    ensures Synced(WriteHeader(w, code).0, FirstOf(first, code))
  {
    if w.Conn? {
    } else {
      WriteHeaderSyncs(w.inner, code, first);
    }
  }

  lemma {:induction false} WriteSyncs(w: Writer, first: Option<int>)
    requires Synced(w, first)
    ensures Synced(Write(w), FirstOf(first, OK))
    decreases Depth(w)
  {
    if w.Conn? {
    } else {
      WriteHeaderSyncs(w, OK, first);
      var ready := if w.wroteHeader then w else WriteHeader(w, OK).0;
      WriteSyncs(ready.inner, FirstOf(first, OK));
    }
  }

  lemma {:induction false} ClientStatusIsFinal(w: Writer, first: Option<int>)
    requires Synced(w, first)
    ensures IsFinal(ClientStatus(w))
    ensures first.Some? && IsFinal(first.value) ==> ClientStatus(w) == first.value
    ensures first.None? ==> ClientStatus(w) == OK
  {
    if w.Conn? {
    } else {
      ClientStatusIsFinal(w.inner, first);
    }
  }

  // ---------- The objects ----------

  class Connection {
    var committed: Option<int>
    var announced: seq<int>

    constructor ()
      ensures View() == Conn(None, [])
    {
      committed, announced := None, [];
    }

    ghost function View(): Writer
      reads this
    {
      Conn(committed, announced)
    }

    method DoWriteHeader(code: int) returns (panics: bool)
      modifies this
      ensures (View(), panics) == WriteHeader(old(View()), code)
    {
      if committed.Some? {
        return false;
      }
      if !IsStatus(code) {
        return true;
      }
      if IsFinal(code) {
        committed := Some(code);
      } else {
        announced := announced + [code];
      }
      return false;
    }

    method DoWrite()
      modifies this
      ensures View() == Write(old(View()))
    {
      if committed.None? {
        committed := Some(OK);
      }
    }
  }

  datatype Target = ToConnection(conn: Connection) | ToWriter(writer: ResponseWriter)

  class ResponseWriter {
    const target: Target
    ghost const depth: nat
    var status: int
    var wroteHeader: bool

    /** The writers below, down to the connection. */
    ghost function Repr(): set<object>
      decreases depth
    {
      match target
      case ToConnection(conn) => {this, conn}
      case ToWriter(writer) => if writer.depth < depth then {this} + writer.Repr() else {this}
    }

    lemma {:induction false} ReprGoesDown()
      ensures forall w: ResponseWriter :: w in Repr() ==> w.depth <= depth
      decreases depth
    {
      if target.ToWriter? && target.writer.depth < depth {
        target.writer.ReprGoesDown();
      }
    }

    ghost predicate Nested()
      decreases depth
    {
      match target
      case ToConnection(_) => true
      case ToWriter(writer) => writer.depth < depth && writer.Nested() && this !in writer.Repr()
    }

    ghost function View(): (w: Writer)
      requires Nested()
      reads Repr()
      ensures w.Recorder? && w.status == status && w.wroteHeader == wroteHeader
      decreases depth
    {
      match target
      case ToConnection(conn) => Recorder(conn.View(), status, wroteHeader)
      case ToWriter(writer) => Recorder(writer.View(), status, wroteHeader)
    }

    constructor OnConnection(conn: Connection)
      ensures Nested() && Repr() == {this, conn} && View() == NewRecorder(conn.View())
    {
      target := ToConnection(conn);
      depth := 0;
      status, wroteHeader := OK, false;
    }

    constructor OnWriter(writer: ResponseWriter)
      requires writer.Nested()
      ensures Nested() && Repr() == {this} + writer.Repr() && View() == NewRecorder(writer.View())
    {
      target := ToWriter(writer);
      depth := writer.depth + 1;
      status, wroteHeader := OK, false;
      new;
      writer.ReprGoesDown();
    }

    method DoWriteHeader(code: int) returns (panics: bool)
      requires Nested()
      modifies Repr()
      ensures (View(), panics) == WriteHeader(old(View()), code)
      decreases depth
    {
      if !wroteHeader {
        status, wroteHeader := code, true;
      }
      match target
      case ToConnection(conn) => panics := conn.DoWriteHeader(code);
      case ToWriter(writer) => panics := writer.DoWriteHeader(code);
    }

    method DoWrite()
      requires Nested()
      modifies Repr()
      ensures View() == Write(old(View()))
      decreases depth, 1
    {
      if !wroteHeader {
        var _ := DoWriteHeader(OK);
      }
      match target
      case ToConnection(conn) => conn.DoWrite();
      case ToWriter(writer) => writer.DoWrite();
    }
  }
}
