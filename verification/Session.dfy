/** `session`: one accepted connection, from the request over the chain and the reply to the relay. */
module Sessions {
  import opened Bytes
  import opened Proxy
  import Chain
  import R = Relay

  // ----- the session as a machine -----

  /** What the session waits for: a request, the chain, the reply to be written, or the relay. */
  datatype State =
    | Requesting
    | Connecting(dst: Destination)
    | Replying(dst: Destination, result: Chain.ConnectResult, major: Major)
    | Relaying(dst: Destination, result: Chain.ConnectResult, major: Major, relay: R.State)
    | Closed

  /** What the client is told about a result. */
  function MajorFor(r: Chain.ConnectResult): Major {
    if r.success then Succeeded
    else match r.err
      case None => r.resp
      case Some(e) => if ErrorToMajor(e).Some? then ErrorToMajor(e).value else UnknownError
  }

  datatype Event =
    | GotRequest(request: Result<Destination>)
    | GotResult(result: Chain.ConnectResult)
    | WroteReply(error: Option<Error>)
    | Relayed(ev: R.Event)

  predicate Enabled(st: State, ev: Event) {
    match ev
    case GotRequest(_) => st.Requesting?
    case GotResult(_) => st.Connecting?
    case WroteReply(_) => st.Replying?
    case Relayed(e) => st.Relaying? && R.Enabled(st.relay, e)
  }

  function Step(st: State, ev: Event): State
    requires Enabled(st, ev)
  {
    match ev
    case GotRequest(Err(_)) => Closed
    case GotRequest(Ok(d)) => Connecting(d)
    case GotResult(r) => Replying(st.dst, r, MajorFor(r))
    case WroteReply(e) =>
      if e.None? && st.result.success then Relaying(st.dst, st.result, st.major, R.START) else Closed
    case Relayed(e) => st.(relay := R.Step(st.relay, e))
  }

  /** The client is told of success exactly if there was success. */
  lemma HonestReply(x: Chain.Setup, st: Chain.State, r: Chain.ConnectResult)
    requires Chain.Honest(x, st, r)
    ensures MajorFor(r) == Succeeded <==> r.success
  {
  }

  // ----- the session as an object -----

  /** An outstanding operation on a buffer: `n` bytes of it are to be written, `done` of them are. */
  datatype Transfer = Reading | Writing(n: nat, done: nat) | Ended | Broken(from: nat, to: nat)

  datatype Waiting = ForRequest | ForOutput | ForReply | ForRelay | Nothing

  /** History of one direction of the relay. */
  datatype Past = Past(consumed: seq<byte>, delivered: seq<byte>, doomed: bool, late: nat)

  predicate TransferOk(t: Transfer) {
    && (t.Writing? ==> t.done <= t.n <= R.BUF_SIZE)
    && (t.Broken? ==> t.from <= t.to <= R.BUF_SIZE)
  }

  function DirOf(t: Transfer, buf: seq<byte>, p: Past): R.Dir
    requires TransferOk(t) && |buf| == R.BUF_SIZE
  {
    R.Dir(match t
          case Reading => R.Reading
          case Writing(n, done) => R.Writing(buf[..n], done)
          case Ended => R.Ended
          case Broken(from, to) => R.Broken(buf[from..to]),
          p.consumed, p.delivered, p.doomed, p.late)
  }

  /** A part of the first `n` bytes. */
  lemma Part(buf: seq<byte>, n: nat, from: nat, to: nat)
    requires from <= to <= n <= |buf|
    ensures buf[..n][from..to] == buf[from..to]
  {
  }

  class Session {
    var waiting: Waiting
    var dst: Destination
    var outputConnRes: Chain.ConnectResult
    var reply: Major  // passed to `write_connect_response`
    var inputReadBuf: array?<byte>
    var outputReadBuf: array?<byte>
    var closed: bool
    var inputShut: bool
    var outputShut: bool
    var up: Transfer  // from the input socket to the output socket
    var down: Transfer
    ghost var upPast: Past
    ghost var downPast: Past

    ghost predicate Valid()
      reads this
    {
      waiting == ForRelay ==>
        && inputReadBuf != null && outputReadBuf != null && inputReadBuf != outputReadBuf
        && inputReadBuf.Length == R.BUF_SIZE == outputReadBuf.Length
        && TransferOk(up) && TransferOk(down)
    }

    ghost function View(): State
      reads this, inputReadBuf, outputReadBuf
      requires Valid()
    {
      match waiting
      case ForRequest => Requesting
      case ForOutput => Connecting(dst)
      case ForReply => Replying(dst, outputConnRes, reply)
      case ForRelay => Relaying(dst, outputConnRes, reply, RelayView())
      case Nothing => Closed
    }

    ghost function RelayView(): R.State
      reads this, inputReadBuf, outputReadBuf
      requires Valid() && waiting == ForRelay
    {
      R.State(DirOf(up, inputReadBuf[..], upPast), DirOf(down, outputReadBuf[..], downPast), closed, outputShut, inputShut)
    }

    /** Everything but the relay. */
    ghost predicate SameFrame(other: Waiting, d: Destination, r: Chain.ConnectResult, m: Major)
      reads this
    {
      waiting == other && dst == d && outputConnRes == r && reply == m
    }

    constructor ()
      ensures Valid() && View() == Requesting
    {
      waiting, dst, reply := ForRequest, NO_DESTINATION, UnknownError;
      outputConnRes := Chain.ConnectResult(false, None, None, UnknownError);
      inputReadBuf, outputReadBuf := null, null;
      closed, inputShut, outputShut := false, false, false;
      up, down := Ended, Ended;
      upPast, downPast := Past([], [], false, 0), Past([], [], false, 0);
    }

    method CloseAll()
      modifies this`closed
      ensures closed
    {
      closed := true;
    }

    /** The reader has stored the destination, if there is no error, before it calls this. */
    method HandleReadConnectRequest(err: Option<Error>, d: Destination)
      requires Valid() && waiting == ForRequest && !closed
      modifies this
      ensures Valid() && (View().Closed? ==> closed) && (!View().Closed? ==> !closed)
      ensures View() == Step(old(View()), GotRequest(if err.Some? then Err(err.value) else Ok(d)))
    {
      if err.Some? {
        CloseAll();
        waiting := Nothing;
        return;
      }
      dst := d;
      waiting := ForOutput;
    }

    method HandleConnectOutput(r: Chain.ConnectResult)
      requires Valid() && waiting == ForOutput && !closed
      modifies this
      ensures Valid() && !closed && View() == Step(old(View()), GotResult(r))
    {
      outputConnRes := r;
      if r.success {
        reply := Succeeded;
      } else if r.err.Some? {
        var m := ErrorToMajor(r.err.value);
        reply := if m.Some? then m.value else UnknownError;
      } else {
        reply := r.resp;
      }
      waiting := ForReply;
    }

    method HandleWriteConnectResponse(err: Option<Error>)
      requires Valid() && waiting == ForReply && !closed
      modifies this
      ensures Valid() && (View().Closed? ==> closed) && (!View().Closed? ==> !closed)
      ensures View() == Step(old(View()), WroteReply(err))
    {
      if err.Some? || !outputConnRes.success {
        CloseAll();
        waiting := Nothing;
        return;
      }
      MakeTunnel();
    }

    method MakeTunnel()
      requires !closed
      modifies this
      ensures Valid() && !closed && SameFrame(ForRelay, old(dst), old(outputConnRes), old(reply))
      ensures RelayView() == R.START
    {
      inputReadBuf := new byte[R.BUF_SIZE];
      outputReadBuf := new byte[R.BUF_SIZE];
      waiting := ForRelay;
      inputShut, outputShut := false, false;
      upPast, downPast := Past([], [], false, 0), Past([], [], false, 0);
      up, down := Reading, Reading;
    }

    ghost method Begun(w: R.Way)
      modifies this`upPast, this`downPast
      ensures w == R.Up ==> downPast == old(downPast)
      ensures w == R.Down ==> upPast == old(upPast)
      ensures w == R.Up ==>
        upPast == old(upPast).(doomed := closed, late := if closed then old(upPast.late) + 1 else old(upPast.late))
      ensures w == R.Down ==>
        downPast == old(downPast).(doomed := closed, late := if closed then old(downPast.late) + 1 else old(downPast.late))
    {
      if w == R.Up {
        upPast := upPast.(doomed := closed, late := if closed then upPast.late + 1 else upPast.late);
      } else {
        downPast := downPast.(doomed := closed, late := if closed then downPast.late + 1 else downPast.late);
      }
    }

    /** `handle_input_read` without an error: the bytes are in the buffer, and `begin_output_write` follows. */
    method InputReadOk(chunk: seq<byte>)
      requires Valid() && waiting == ForRelay && R.Enabled(RelayView(), R.ReadOk(R.Up, chunk))
      modifies this, inputReadBuf
      ensures Valid() && View() == Step(old(View()), Relayed(R.ReadOk(R.Up, chunk)))
    {
      Fill(inputReadBuf, 0, 0, chunk);
      assert inputReadBuf[..][..|chunk|] == [] + chunk;
      upPast := upPast.(consumed := upPast.consumed + chunk);
      up := Writing(|chunk|, 0);
      Begun(R.Up);
    }

    method OutputReadOk(chunk: seq<byte>)
      requires Valid() && waiting == ForRelay && R.Enabled(RelayView(), R.ReadOk(R.Down, chunk))
      modifies this, outputReadBuf
      ensures Valid() && View() == Step(old(View()), Relayed(R.ReadOk(R.Down, chunk)))
    {
      Fill(outputReadBuf, 0, 0, chunk);
      assert outputReadBuf[..][..|chunk|] == [] + chunk;
      downPast := downPast.(consumed := downPast.consumed + chunk);
      down := Writing(|chunk|, 0);
      Begun(R.Down);
    }

    /** `handle_input_read` with an error: at the end of the stream the output socket is shut down for sending. */
    method InputReadError(eof: bool)
      requires Valid() && waiting == ForRelay
      requires R.Enabled(RelayView(), if eof then R.ReadEof(R.Up) else R.ReadFails(R.Up))
      modifies this
      ensures Valid() && View() == Step(old(View()), Relayed(if eof then R.ReadEof(R.Up) else R.ReadFails(R.Up)))
    {
      if eof {
        up := Ended;
        outputShut := true;
      } else {
        up := Broken(0, 0);
        CloseAll();
      }
    }

    method OutputReadError(eof: bool)
      requires Valid() && waiting == ForRelay
      requires R.Enabled(RelayView(), if eof then R.ReadEof(R.Down) else R.ReadFails(R.Down))
      modifies this
      ensures Valid() && View() == Step(old(View()), Relayed(if eof then R.ReadEof(R.Down) else R.ReadFails(R.Down)))
    {
      if eof {
        down := Ended;
        inputShut := true;
      } else {
        down := Broken(0, 0);
        CloseAll();
      }
    }

    /** Some more bytes of the input buffer go out; `handle_output_write` follows the last of them. */
    method OutputWriteSome(k: nat)
      requires Valid() && waiting == ForRelay && R.Enabled(RelayView(), R.WriteSome(R.Up, k))
      modifies this
      ensures Valid() && View() == Step(old(View()), Relayed(R.WriteSome(R.Up, k)))
    {
      var end := up.done + k;
      Part(inputReadBuf[..], up.n, up.done, end);
      upPast := upPast.(delivered := upPast.delivered + inputReadBuf[up.done..end]);
      if end == up.n {
        up := Reading;
        Begun(R.Up);
      } else {
        up := Writing(up.n, end);
      }
    }

    method InputWriteSome(k: nat)
      requires Valid() && waiting == ForRelay && R.Enabled(RelayView(), R.WriteSome(R.Down, k))
      modifies this
      ensures Valid() && View() == Step(old(View()), Relayed(R.WriteSome(R.Down, k)))
    {
      var end := down.done + k;
      Part(outputReadBuf[..], down.n, down.done, end);
      downPast := downPast.(delivered := downPast.delivered + outputReadBuf[down.done..end]);
      if end == down.n {
        down := Reading;
        Begun(R.Down);
      } else {
        down := Writing(down.n, end);
      }
    }

    method OutputWriteError()
      requires Valid() && waiting == ForRelay && R.Enabled(RelayView(), R.WriteFails(R.Up))
      modifies this
      ensures Valid() && View() == Step(old(View()), Relayed(R.WriteFails(R.Up)))
    {
      assert inputReadBuf[..][..up.n][up.done..] == inputReadBuf[..][up.done..up.n];
      up := Broken(up.done, up.n);
      CloseAll();
    }

    method InputWriteError()
      requires Valid() && waiting == ForRelay && R.Enabled(RelayView(), R.WriteFails(R.Down))
      modifies this
      ensures Valid() && View() == Step(old(View()), Relayed(R.WriteFails(R.Down)))
    {
      assert outputReadBuf[..][..down.n][down.done..] == outputReadBuf[..][down.done..down.n];
      down := Broken(down.done, down.n);
      CloseAll();
    }
  }
}
