/** `output`: the object that drives the chain, one callback at a time. */
module Outputs {
  import opened Bytes
  import opened IpAddresses
  import opened Proxy
  import Chain

  class Output {
    const chain: seq<Destination>
    var curProxy: nat
    var finalDst: Destination
    var userConnectHandler: bool  // whether the handler slot is filled
    var connResp: Major
    var pending: Chain.Pending
    var calls: seq<Chain.ConnectResult>  // of the current handler
    ghost var resolved: Option<Address>
    ghost var peer: Option<(Address, uint16)>
    ghost var far: Option<Destination>
    ghost var asked: seq<Destination>

    ghost function Setup(): Chain.Setup
      reads this
    {
      Chain.Setup(chain, finalDst)
    }

    ghost function View(): Chain.State
      reads this
    {
      Chain.State(pending, curProxy, resolved, peer, far, asked, calls)
    }

    /** The handler is there exactly as long as it is still to be called. */
    ghost predicate Valid()
      reads this
    {
      Chain.Inv(Setup(), View()) && (userConnectHandler <==> !pending.Idle?)
    }

    constructor (chain: seq<Destination>)
      ensures this.chain == chain && !userConnectHandler && calls == []
    {
      this.chain := chain;
      curProxy, finalDst, userConnectHandler, connResp := 0, NO_DESTINATION, false, UnknownError;
      pending, calls, asked := Chain.Idle, [], [];
      resolved, peer, far := None, None, None;
    }

    method CallAndClearHandler(r: Chain.ConnectResult)
      requires userConnectHandler
      modifies this
      ensures !userConnectHandler && Setup() == old(Setup()) && View() == Chain.Finish(old(View()), r)
    {
      userConnectHandler := false;
      pending := Chain.Idle;
      calls := calls + [r];
    }

    method ConnectThroughChain(dst: Destination)
      requires !userConnectHandler
      modifies this
      ensures Valid() && finalDst == dst && View() == Chain.Start(Setup())
    {
      finalDst := dst;
      userConnectHandler := true;
      curProxy := 0;
      calls, resolved, peer, far, asked := [], None, None, None, [];
      if chain == [] {
        if dst.UsingHostname() {
          pending := Chain.Resolving(dst.hostname, finalDst.port, None);
        } else {
          pending := Chain.Connecting(dst.ip, dst.port, None);
        }
      } else {
        var first := chain[0];
        if first.UsingHostname() {
          pending := Chain.Resolving(first.hostname, first.port, Some(0));
        } else {
          pending := Chain.Connecting(first.ip, first.port, Some(0));
        }
      }
    }

    method HandleResolve(address: Result<Address>)
      requires Valid() && pending.Resolving?
      modifies this
      ensures Valid() && Setup() == old(Setup())
      ensures View() == Chain.Step(Setup(), old(View()), Chain.Resolved(address))
    {
      Chain.StepKeepsInv(Setup(), View(), Chain.Resolved(address));
      match address
      case Err(e) => CallAndClearHandler(Chain.ConnectResult(false, Some(e), pending.index, UnknownError));
      case Ok(a) =>
        resolved := Some(a);
        pending := Chain.Connecting(a, pending.port, pending.index);
    }

    method ConnectNext(err: Option<Error>, index: Option<nat>)
      requires userConnectHandler && curProxy <= |chain| && !pending.Idle?
      modifies this
      ensures Setup() == old(Setup()) && (userConnectHandler <==> !pending.Idle?)
      ensures View() == if err.Some? then Chain.Fail(old(View()), err.value, index) else Chain.GoOn(Setup(), old(View()), index)
    {
      if err.Some? {
        CallAndClearHandler(Chain.ConnectResult(false, err, index, UnknownError));
        return;
      }
      if curProxy == |chain| {
        CallAndClearHandler(Chain.ConnectResult(true, None, None, UnknownError));
        return;
      }
      var next := if curProxy + 1 < |chain| then chain[curProxy + 1] else finalDst;
      pending := Chain.Asking(next, index);
    }

    method HandleConnect(err: Option<Error>)
      requires Valid() && pending.Connecting?
      modifies this
      ensures Valid() && Setup() == old(Setup())
      ensures View() == Chain.Step(Setup(), old(View()), Chain.Connected(err))
    {
      Chain.StepKeepsInv(Setup(), View(), Chain.Connected(err));
      if err.None? {
        peer, far := Some((pending.ip, pending.port)), Some(Chain.Target(Setup(), 0));
      }
      ConnectNext(err, pending.index);
    }

    method HandleWriteConnectRequest(err: Option<Error>)
      requires Valid() && pending.Asking?
      modifies this
      ensures Valid() && Setup() == old(Setup())
      ensures View() == Chain.Step(Setup(), old(View()), Chain.Written(err))
    {
      Chain.StepKeepsInv(Setup(), View(), Chain.Written(err));
      if err.Some? {
        CallAndClearHandler(Chain.ConnectResult(false, err, pending.index, UnknownError));
        return;
      }
      asked := asked + [pending.next];
      pending := Chain.Awaiting(pending.index);
    }

    /** The session has stored the response, if there is no error, before it calls this. */
    method HandleReadConnectResponse(err: Option<Error>, response: Major)
      requires Valid() && pending.Awaiting?
      modifies this
      ensures Valid() && Setup() == old(Setup())
      ensures View() == Chain.Step(Setup(), old(View()), Chain.Responded(if err.Some? then Err(err.value) else Ok(response)))
    {
      Chain.StepKeepsInv(Setup(), View(), Chain.Responded(if err.Some? then Err(err.value) else Ok(response)));
      if err.Some? {
        CallAndClearHandler(Chain.ConnectResult(false, err, pending.index, UnknownError));
        return;
      }
      connResp := response;
      if connResp != Succeeded {
        CallAndClearHandler(Chain.ConnectResult(false, None, pending.index, connResp));
        return;
      }
      far := Some(asked[|asked| - 1]);
      curProxy := curProxy + 1;
      ConnectNext(None, Some(pending.index.value + 1));
    }
  }
}
