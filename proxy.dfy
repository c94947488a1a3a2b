/**
 * `mcpProxy` (src/lib/utils.ts): wires two transports together.  Each
 * transport event is a method; the two closure flags are fields; the calls
 * the proxy makes on each transport (`send`, `close`) and the errors it logs
 * are recorded in ghost logs.
 */
module Proxy {

  /** A call the proxy makes on one transport. */
  datatype Call<M> = Send(message: M) | Close

  /** A line written by `onClientError` or `onServerError`. */
  datatype ErrorReport = FromClient(error: string) | FromServer(error: string)

  class McpProxy<M> {
    var transportToClientClosed: bool
    var transportToServerClosed: bool
    /** Calls made on the transport to the local client, in order. */
    ghost var clientCalls: seq<Call<M>>
    /** Calls made on the transport to the remote server, in order. */
    ghost var serverCalls: seq<Call<M>>
    /** Errors logged, in order. */
    ghost var errorLog: seq<ErrorReport>

    /**
     * The two flags are never both set, and a side's flag is set exactly when
     * the proxy has closed the OTHER side in reaction to it.
     */
    ghost predicate Valid()
      reads this
    {
      && !(transportToClientClosed && transportToServerClosed)
      && (transportToClientClosed <==> Close in serverCalls)
      && (transportToServerClosed <==> Close in clientCalls)
    }

    /** Installing the handlers: nothing is closed or sent yet. */
    constructor ()
      ensures Valid()
      ensures !transportToClientClosed && !transportToServerClosed
      ensures clientCalls == [] && serverCalls == [] && errorLog == []
    {
      transportToClientClosed := false;
      transportToServerClosed := false;
      clientCalls := [];
      serverCalls := [];
      errorLog := [];
    }

    /** `transportToClient.onmessage`: the message goes to the server unchanged. */
    method OnClientMessage(message: M)
      requires Valid()
      modifies this
      ensures Valid()
      ensures serverCalls == old(serverCalls) + [Send(message)]
      ensures clientCalls == old(clientCalls) && errorLog == old(errorLog)
      ensures transportToClientClosed == old(transportToClientClosed)
      ensures transportToServerClosed == old(transportToServerClosed)
    {
      serverCalls := serverCalls + [Send(message)];
    }

    /** `transportToServer.onmessage`: the message goes to the client unchanged. */
    method OnServerMessage(message: M)
      requires Valid()
      modifies this
      ensures Valid()
      ensures clientCalls == old(clientCalls) + [Send(message)]
      ensures serverCalls == old(serverCalls) && errorLog == old(errorLog)
      ensures transportToClientClosed == old(transportToClientClosed)
      ensures transportToServerClosed == old(transportToServerClosed)
    {
      clientCalls := clientCalls + [Send(message)];
    }

    /**
     * `transportToClient.onclose`: ignored once the server side has closed;
     * otherwise marks the client closed and closes the server.
     */
    method OnClientClose()
      requires Valid()
      modifies this
      ensures Valid()
      ensures old(transportToServerClosed) ==> unchanged(this)
      ensures !old(transportToServerClosed) ==>
                && transportToClientClosed && !transportToServerClosed
                && serverCalls == old(serverCalls) + [Close]
                && clientCalls == old(clientCalls) && errorLog == old(errorLog)
    {
      if transportToServerClosed {
        return;
      }
      transportToClientClosed := true;
      serverCalls := serverCalls + [Close];
    }

    /**
     * `transportToServer.onclose`: ignored once the client side has closed;
     * otherwise marks the server closed and closes the client.
     */
    method OnServerClose()
      requires Valid()
      modifies this
      ensures Valid()
      ensures old(transportToClientClosed) ==> unchanged(this)
      ensures !old(transportToClientClosed) ==>
                && transportToServerClosed && !transportToClientClosed
                && clientCalls == old(clientCalls) + [Close]
                && serverCalls == old(serverCalls) && errorLog == old(errorLog)
    {
      if transportToClientClosed {
        return;
      }
      transportToServerClosed := true;
      clientCalls := clientCalls + [Close];
    }

    /**
     * `onClientError`: the client's `onerror`, and the `.catch` of a failed
     * `send` or `close` on the client.  Only logs.
     */
    method OnClientError(error: string)
      requires Valid()
      modifies this
      ensures Valid()
      ensures errorLog == old(errorLog) + [FromClient(error)]
      ensures clientCalls == old(clientCalls) && serverCalls == old(serverCalls)
      ensures transportToClientClosed == old(transportToClientClosed)
      ensures transportToServerClosed == old(transportToServerClosed)
    {
      errorLog := errorLog + [FromClient(error)];
    }

    /**
     * `onServerError`: the server's `onerror`, and the `.catch` of a failed
     * `send` or `close` on the server.  Only logs.
     */
    method OnServerError(error: string)
      requires Valid()
      modifies this
      ensures Valid()
      ensures errorLog == old(errorLog) + [FromServer(error)]
      ensures clientCalls == old(clientCalls) && serverCalls == old(serverCalls)
      ensures transportToClientClosed == old(transportToClientClosed)
      ensures transportToServerClosed == old(transportToServerClosed)
    {
      errorLog := errorLog + [FromServer(error)];
    }
  }

  /**
   * The client sends a message and then closes; the server's own close, which
   * the proxy induced, fires back.  The server sees the message before its
   * close, and the induced close is not bounced back to the client.
   */
  method MessageThenClose<M>(proxy: McpProxy<M>, message: M)
    requires proxy.Valid()
    requires !proxy.transportToClientClosed && !proxy.transportToServerClosed
    modifies proxy
    ensures proxy.Valid()
    ensures proxy.serverCalls == old(proxy.serverCalls) + [Send(message), Close]
    ensures proxy.clientCalls == old(proxy.clientCalls)
    ensures proxy.transportToClientClosed && !proxy.transportToServerClosed
  {
    proxy.OnClientMessage(message);
    proxy.OnClientClose();
    proxy.OnServerClose();
  }
}
