/**
 * The entry node's per-connection handler (`handle_client` of proxy_entree.py):
 * open the tunnel to the exit node, send the RSA-wrapped session key, then
 * alternate strictly — one client chunk out as one frame, one frame back as
 * one decrypted reply to the client — until either side closes or a call
 * raises, and close both sockets on the way out.
 */
module EntryRelay {
  import opened Bytes
  import opened Frame
  import opened Crypto
  import opened Transport
  import opened Trace

  /** `client_socket.recv(4096)`. */
  const ClientBufferSize: nat := 4096
  /** `sortie_socket.recv(8192)`. */
  const TunnelBufferSize: nat := 8192

  /** What `socket.socket()` and `connect` do for this connection. */
  datatype Dial =
    | SocketFails                             // `socket.socket` raises
    | ConnectFails                            // `connect` raises
    | Connects(replies: seq<Segment>)        // what the exit node will write back

  datatype Failure = ConnectFailed | EncryptFailed | DecryptFailed

  /** How `handle_client` ends. */
  datatype Ending =
    | ClientHungUp                // empty read from the client
    | ExitHungUp                  // empty read from the exit node
    | Aborted(failure: Failure)   // an exception caught, printed, and the `finally` run
    | UnboundSortieSocket         // the `finally` itself raises: `sortie_socket` was never bound

  /** The journal of a connected session: the key, the loop, then the two closes. */
  lemma SessionJournal(start: seq<Event>, key: Event, loop: seq<Event>, c1: Event, c2: Event)
    ensures start + [key] + loop + [c1] + [c2] == start + ([key] + loop + [c1, c2])
  {
    AppendAssoc(start, [key], loop);
    AppendAssoc(start + [key] + loop, [c1], [c2]);
    AppendAssoc(start, [key] + loop, [c1, c2]);
  }

  /**
   * The relaying loop from its `i`-th pass on: `client` and `tunnel` are what the
   * two peers have still to deliver, and `draw(i)` is the nonce drawn for the
   * `i`-th frame. A pass starts with a read from the client.
   */
  function Relay(p: Primitives, key: AesKey, draw: nat -> Nonce, i: nat,
                 client: seq<Segment>, tunnel: seq<Segment>): Run<Ending>
    decreases Volume(client), 0
  {
    var (request, client') := Take(client, ClientBufferSize);
    if request == [] then Run([Received(ClientLink, [])], ClientHungUp)
    else Prepend([Received(ClientLink, request)], Forward(p, key, draw, i, request, client', tunnel))
  }

  /**
   * The rest of the `i`-th pass once the client sent `request`: one frame to the
   * exit node and one back, then the next pass.
   */
  function Forward(p: Primitives, key: AesKey, draw: nat -> Nonce, i: nat, request: Bytes,
                   client: seq<Segment>, tunnel: seq<Segment>): Run<Ending>
    decreases Volume(client), 1
  {
    match SealFrame(p, key, draw(i), request)
    case None => Run([], Aborted(EncryptFailed))
    case Some(frame) =>
      var (data, tunnel') := Take(tunnel, TunnelBufferSize);
      var head := [Sent(TunnelLink, frame), Received(TunnelLink, data)];
      if data == [] then Run(head, ExitHungUp)
      else match OpenFrame(p, key, data)
        case None => Run(head, Aborted(DecryptFailed))
        case Some(response) =>
          Prepend(head + [Sent(ClientLink, response)], Relay(p, key, draw, i + 1, client, tunnel'))
  }

  /** Everything `handle_client` does, given how the connection to the exit node goes. */
  function Session(p: Primitives, wrapKey: RsaKey, key: AesKey, draw: nat -> Nonce,
                   dial: Dial, client: seq<Segment>): Run<Ending>
  {
    match dial
    case SocketFails => Run([Closed(ClientLink)], UnboundSortieSocket)
    case ConnectFails => Run([Closed(ClientLink), Closed(TunnelLink)], Aborted(ConnectFailed))
    case Connects(replies) =>
      var relay := Relay(p, key, draw, 0, client, replies);
      Run([Sent(TunnelLink, p.rsaEncrypt(wrapKey, key))] + relay.events + [Closed(ClientLink), Closed(TunnelLink)],
          relay.ending)
  }

  /**
   * The loop body of `handle_client`: a client read, and if it is not empty a frame
   * each way. `delta` is what it adds to the journal; `stop` is the ending when it
   * leaves the loop.
   */
  method RelayOnce(client: Socket, tunnel: Socket, p: Primitives, key: AesKey,
                   draw: nat -> Nonce, i: nat)
    returns (stop: Option<Ending>, ghost delta: seq<Event>)
    requires client.link == ClientLink && tunnel.link == TunnelLink
    requires client != tunnel && client.journal == tunnel.journal
    modifies client, tunnel, client.journal
    ensures client.journal.events == old(client.journal.events) + delta
    ensures stop.Some? ==> Relay(p, key, draw, i, old(client.inFlight), old(tunnel.inFlight)) == Run(delta, stop.value)
    ensures stop.None? ==>
              && Volume(client.inFlight) < Volume(old(client.inFlight))
              && Relay(p, key, draw, i, old(client.inFlight), old(tunnel.inFlight))
                 == Prepend(delta, Relay(p, key, draw, i + 1, client.inFlight, tunnel.inFlight))
    ensures client.closed == old(client.closed) && tunnel.closed == old(tunnel.closed)
  {
    ghost var start := client.journal.events;
    var request := client.Recv(ClientBufferSize);
    if request == [] {
      return Some(ClientHungUp), [Received(ClientLink, [])];
    }
    ghost var rest;
    stop, rest := ForwardOnce(client, tunnel, p, key, draw, i, request);
    delta := [Received(ClientLink, request)] + rest;
    AppendAssoc(start, [Received(ClientLink, request)], rest);
    if stop.None? {
      PrependPrepend([Received(ClientLink, request)], rest, Relay(p, key, draw, i + 1, client.inFlight, tunnel.inFlight));
    }
  }

  /** The part of the loop body after a non-empty client read. */
  method ForwardOnce(client: Socket, tunnel: Socket, p: Primitives, key: AesKey,
                     draw: nat -> Nonce, i: nat, request: Bytes)
    returns (stop: Option<Ending>, ghost delta: seq<Event>)
    requires client.link == ClientLink && tunnel.link == TunnelLink
    requires client != tunnel && client.journal == tunnel.journal
    modifies tunnel, client.journal
    ensures client.journal.events == old(client.journal.events) + delta
    ensures stop.Some? ==> Forward(p, key, draw, i, request, client.inFlight, old(tunnel.inFlight)) == Run(delta, stop.value)
    ensures stop.None? ==>
              Forward(p, key, draw, i, request, client.inFlight, old(tunnel.inFlight))
              == Prepend(delta, Relay(p, key, draw, i + 1, client.inFlight, tunnel.inFlight))
    ensures tunnel.closed == old(tunnel.closed)
  {
    var nonce := draw(i);
    var sealed := p.aesEncrypt(key, nonce, request);
    if sealed.None? {
      return Some(Aborted(EncryptFailed)), [];
    }
    var frame := nonce + sealed.value.tag + sealed.value.ciphertext;
    tunnel.SendAll(frame);
    var data := tunnel.Recv(TunnelBufferSize);
    if data == [] {
      return Some(ExitHungUp), [Sent(TunnelLink, frame), Received(TunnelLink, data)];
    }
    var parts := Split(data);
    var response := p.aesDecrypt(key, parts.nonce, parts.ciphertext, parts.tag);
    if response.None? {
      return Some(Aborted(DecryptFailed)), [Sent(TunnelLink, frame), Received(TunnelLink, data)];
    }
    client.SendAll(response.value);
    return None, [Sent(TunnelLink, frame), Received(TunnelLink, data), Sent(ClientLink, response.value)];
  }

  /** The `while True` loop of `handle_client`. */
  method RelayLoop(client: Socket, tunnel: Socket, p: Primitives, key: AesKey, draw: nat -> Nonce)
    returns (ending: Ending)
    requires client.link == ClientLink && tunnel.link == TunnelLink
    requires client != tunnel && client.journal == tunnel.journal
    modifies client, tunnel, client.journal
    ensures client.journal.events
            == old(client.journal.events) + Relay(p, key, draw, 0, old(client.inFlight), old(tunnel.inFlight)).events
    ensures ending == Relay(p, key, draw, 0, old(client.inFlight), old(tunnel.inFlight)).ending
    ensures client.closed == old(client.closed) && tunnel.closed == old(tunnel.closed)
  {
    var journal := client.journal;
    ghost var before := journal.events;
    ghost var whole := Relay(p, key, draw, 0, client.inFlight, tunnel.inFlight);
    ghost var done: seq<Event> := [];
    var i := 0;
    while true
      invariant journal.events == before + done
      invariant whole == Prepend(done, Relay(p, key, draw, i, client.inFlight, tunnel.inFlight))
      invariant client.closed == old(client.closed) && tunnel.closed == old(tunnel.closed)
      decreases Volume(client.inFlight)
    {
      var stop, delta := RelayOnce(client, tunnel, p, key, draw, i);
      if stop.Some? {
        AppendAssoc(before, done, delta);
        ending := stop.value;
        break;
      }
      PrependPrepend(done, delta, Relay(p, key, draw, i + 1, client.inFlight, tunnel.inFlight));
      AppendAssoc(before, done, delta);
      done := done + delta;
      i := i + 1;
    }
  }

  /**
   * `handle_client(client_socket)`. The session key `key` is the one
   * `generate_aes_key()` returns and `wrapKey` the RSA public key it is wrapped
   * with; the nonces `aes_encrypt` draws are `draw(0)`, `draw(1)`, ...
   */
  method HandleClient(client: Socket, dial: Dial, p: Primitives, wrapKey: RsaKey, key: AesKey,
                      draw: nat -> Nonce) returns (ending: Ending)
    requires client.link == ClientLink
    modifies client, client.journal
    ensures client.journal.events
            == old(client.journal.events) + Session(p, wrapKey, key, draw, dial, old(client.inFlight)).events
    ensures ending == Session(p, wrapKey, key, draw, dial, old(client.inFlight)).ending
    ensures client.closed
  {
    var journal := client.journal;
    ghost var start := journal.events;
    if dial.SocketFails? {
      client.Close();
      return UnboundSortieSocket;
    }
    var tunnel := new Socket(TunnelLink, journal, if dial.Connects? then dial.replies else []);
    if dial.ConnectFails? {
      client.Close();
      tunnel.Close();
      AppendAssoc(start, [Closed(ClientLink)], [Closed(TunnelLink)]);
      return Aborted(ConnectFailed);
    }
    tunnel.SendAll(p.rsaEncrypt(wrapKey, key));
    ending := RelayLoop(client, tunnel, p, key, draw);
    ghost var loop := Relay(p, key, draw, 0, old(client.inFlight), dial.replies).events;
    client.Close();
    tunnel.Close();
    SessionJournal(start, Sent(TunnelLink, p.rsaEncrypt(wrapKey, key)), loop, Closed(ClientLink), Closed(TunnelLink));
  }

  // ---------------------------------------------------------------------------
  // The loop's output, described event by event.

  /** A non-empty `client_socket.recv(4096)`. */
  ghost predicate ClientChunk(e: Event)
  {
    e.Received? && e.link == ClientLink && 0 < |e.data| <= ClientBufferSize
  }

  /** `sortie_socket.sendall(nonce + tag + ciphertext)` of `request`, sealed under `key` and `nonce`. */
  ghost predicate FrameOut(p: Primitives, key: AesKey, nonce: Nonce, request: Bytes, e: Event)
  {
    e.Sent? && e.link == TunnelLink && SealFrame(p, key, nonce, request) == Some(e.data)
  }

  /** A non-empty `sortie_socket.recv(8192)`. */
  ghost predicate FrameIn(e: Event)
  {
    e.Received? && e.link == TunnelLink && 0 < |e.data| <= TunnelBufferSize
  }

  /**
   * One full pass at the head of `e`: a client chunk, the frame carrying it, one
   * frame back, and its plaintext written to the client unchanged.
   */
  ghost predicate Exchange(p: Primitives, key: AesKey, nonce: Nonce, e: seq<Event>)
  {
    && |e| >= 4
    && ClientChunk(e[0]) && FrameOut(p, key, nonce, e[0].data, e[1])
    && FrameIn(e[2])
    && e[3].Sent? && e[3].link == ClientLink && OpenFrame(p, key, e[2].data) == Some(e[3].data)
  }

  /** The pass that leaves the loop, for each way of leaving it. */
  ghost predicate LastPass(p: Primitives, key: AesKey, nonce: Nonce, e: seq<Event>, ending: Ending)
  {
    match ending
    case ClientHungUp => e == [Received(ClientLink, [])]
    case Aborted(EncryptFailed) =>
      |e| == 1 && ClientChunk(e[0]) && SealFrame(p, key, nonce, e[0].data).None?
    case ExitHungUp =>
      |e| == 3 && ClientChunk(e[0]) && FrameOut(p, key, nonce, e[0].data, e[1])
      && e[2] == Received(TunnelLink, [])
    case Aborted(DecryptFailed) =>
      |e| == 3 && ClientChunk(e[0]) && FrameOut(p, key, nonce, e[0].data, e[1])
      && FrameIn(e[2]) && OpenFrame(p, key, e[2].data).None?
    case _ => false
  }

  /** Strict alternation: full passes, the `i`-th under nonce `draw(i)`, then one last pass. */
  ghost predicate Alternates(p: Primitives, key: AesKey, draw: nat -> Nonce, i: nat, e: seq<Event>, ending: Ending)
    decreases |e|
  {
    if |e| >= 4 && Exchange(p, key, draw(i), e) then Alternates(p, key, draw, i + 1, e[4..], ending)
    else LastPass(p, key, draw(i), e, ending)
  }

  /** What `handle_client` writes and reads while relaying follows the alternation. */
  lemma {:induction false} RelayAlternates(p: Primitives, key: AesKey, draw: nat -> Nonce, i: nat,
                                           client: seq<Segment>, tunnel: seq<Segment>)
    ensures Alternates(p, key, draw, i, Relay(p, key, draw, i, client, tunnel).events,
                       Relay(p, key, draw, i, client, tunnel).ending)
    decreases Volume(client)
  {
    var run := Relay(p, key, draw, i, client, tunnel);
    var (request, client') := Take(client, ClientBufferSize);
    if request != [] {
      var f := Forward(p, key, draw, i, request, client', tunnel);
      assert run.events[0] == Received(ClientLink, request) && run.events[1..] == f.events;
      var sealed := SealFrame(p, key, draw(i), request);
      if sealed.Some? {
        var (data, tunnel') := Take(tunnel, TunnelBufferSize);
        var reply := OpenFrame(p, key, data);
        if data != [] && reply.Some? {
          var rest := Relay(p, key, draw, i + 1, client', tunnel');
          assert f.events[..3] == [Sent(TunnelLink, sealed.value), Received(TunnelLink, data), Sent(ClientLink, reply.value)];
          assert f.events[3..] == rest.events;
          assert run.events[4..] == rest.events;
          assert Exchange(p, key, draw(i), run.events);
          RelayAlternates(p, key, draw, i + 1, client', tunnel');
        }
      }
    }
  }

  /** The alternation never closes a socket: closing is left to the `finally`. */
  lemma {:induction false} AlternatesNoClose(p: Primitives, key: AesKey, draw: nat -> Nonce, i: nat,
                                             e: seq<Event>, ending: Ending)
    requires Alternates(p, key, draw, i, e, ending)
    ensures forall k :: 0 <= k < |e| ==> !e[k].Closed?
    ensures ending.Aborted? ==> ending.failure != ConnectFailed
    ensures ending != UnboundSortieSocket && e != []
    decreases |e|
  {
    if |e| >= 4 && Exchange(p, key, draw(i), e) {
      AlternatesNoClose(p, key, draw, i + 1, e[4..], ending);
      assert forall k :: 4 <= k < |e| ==> e[k] == e[4..][k - 4];
    }
  }

  /** With a 32-byte session key AES-GCM does not raise, so the loop never stops on a failed encryption. */
  lemma {:induction false} RelayNeverEncryptFails(p: Primitives, key: AesKey, draw: nat -> Nonce, i: nat,
                                                  client: seq<Segment>, tunnel: seq<Segment>)
    requires AeadAcceptsAes256(p)
    ensures Relay(p, key, draw, i, client, tunnel).ending != Aborted(EncryptFailed)
    decreases Volume(client), 0
  {
    var (request, client') := Take(client, ClientBufferSize);
    if request != [] {
      ForwardNeverEncryptFails(p, key, draw, i, request, client', tunnel);
    }
  }

  /** The `Forward` half of `RelayNeverEncryptFails`. */
  lemma {:induction false} ForwardNeverEncryptFails(p: Primitives, key: AesKey, draw: nat -> Nonce, i: nat,
                                                    request: Bytes, client: seq<Segment>, tunnel: seq<Segment>)
    requires AeadAcceptsAes256(p)
    ensures Forward(p, key, draw, i, request, client, tunnel).ending != Aborted(EncryptFailed)
    decreases Volume(client), 1
  {
    assert p.aesEncrypt(key, draw(i), request).Some?;
    var (data, tunnel') := Take(tunnel, TunnelBufferSize);
    if data != [] && OpenFrame(p, key, data).Some? {
      RelayNeverEncryptFails(p, key, draw, i + 1, client, tunnel');
    }
  }

  /** The chunk at `k` of the alternation is followed by its frame, under the nonce of its pass. */
  ghost predicate ForwardedAt(p: Primitives, key: AesKey, draw: nat -> Nonce, i: nat, e: seq<Event>, k: nat)
    requires k < |e| && e[k].Received?
  {
    k % 4 == 0 && k + 1 < |e| && FrameOut(p, key, draw(i + k / 4), e[k].data, e[k + 1])
  }

  /**
   * Unless the loop stopped on a failed encryption, every non-empty client chunk
   * it read is the start of a pass and is sent on as exactly one frame.
   */
  lemma {:induction false} EveryChunkForwarded(p: Primitives, key: AesKey, draw: nat -> Nonce, i: nat,
                                               e: seq<Event>, ending: Ending)
    requires Alternates(p, key, draw, i, e, ending) && ending != Aborted(EncryptFailed)
    ensures forall k :: 0 <= k < |e| && e[k].Received? && e[k].link == ClientLink && e[k].data != [] ==>
              ForwardedAt(p, key, draw, i, e, k)
    decreases |e|
  {
    if |e| >= 4 && Exchange(p, key, draw(i), e) {
      var rest := e[4..];
      EveryChunkForwarded(p, key, draw, i + 1, rest, ending);
      forall k | 4 <= k < |e| && e[k].Received? && e[k].link == ClientLink && e[k].data != []
        ensures ForwardedAt(p, key, draw, i, e, k)
      {
        assert e[k] == rest[k - 4];
        assert ForwardedAt(p, key, draw, i + 1, rest, k - 4);
        assert e[k + 1] == rest[k - 3];
        assert i + 1 + (k - 4) / 4 == i + k / 4;
      }
    }
  }

  /** Every non-empty chunk `handle_client` reads from the client goes out to the exit node as one frame. */
  lemma RelayForwardsEveryChunk(p: Primitives, key: AesKey, draw: nat -> Nonce, i: nat,
                                client: seq<Segment>, tunnel: seq<Segment>)
    requires AeadAcceptsAes256(p)
    ensures var run := Relay(p, key, draw, i, client, tunnel);
            && run.ending != Aborted(EncryptFailed)
            && forall k ::
                 (0 <= k < |run.events| && run.events[k].Received? && run.events[k].link == ClientLink
                  && run.events[k].data != []) ==> ForwardedAt(p, key, draw, i, run.events, k)
  {
    var run := Relay(p, key, draw, i, client, tunnel);
    RelayNeverEncryptFails(p, key, draw, i, client, tunnel);
    RelayAlternates(p, key, draw, i, client, tunnel);
    EveryChunkForwarded(p, key, draw, i, run.events, run.ending);
  }

  /**
   * Nothing the client writes is lost or reordered in `handle_client`: what it reads
   * from the client socket is a prefix of what the client wrote, and all of it when
   * the loop ends on the client's empty read.
   */
  lemma {:induction false} RelayReadsClient(p: Primitives, key: AesKey, draw: nat -> Nonce, i: nat,
                                            client: seq<Segment>, tunnel: seq<Segment>)
    ensures var run := Relay(p, key, draw, i, client, tunnel);
            && Reads(ClientLink, run.events) <= Stream(client)
            && (run.ending == ClientHungUp ==> Reads(ClientLink, run.events) == Stream(client))
    decreases Volume(client), 0
  {
    var (request, client') := Take(client, ClientBufferSize);
    var rc := Received(ClientLink, request);
    ReadsOne(ClientLink, rc);
    if request != [] {
      var f := Forward(p, key, draw, i, request, client', tunnel);
      ReadsAppend(ClientLink, [rc], f.events);
      ForwardReadsClient(p, key, draw, i, request, client', tunnel);
      PrefixExtend(request, Reads(ClientLink, f.events), Stream(client'));
    }
  }

  /** The rest of a pass reads from the client only in the passes after it. */
  lemma {:induction false} ForwardReadsClient(p: Primitives, key: AesKey, draw: nat -> Nonce, i: nat,
                                              request: Bytes, client: seq<Segment>, tunnel: seq<Segment>)
    ensures var run := Forward(p, key, draw, i, request, client, tunnel);
            && Reads(ClientLink, run.events) <= Stream(client)
            && (run.ending == ClientHungUp ==> Reads(ClientLink, run.events) == Stream(client))
    decreases Volume(client), 1
  {
    match SealFrame(p, key, draw(i), request)
    case None =>
    case Some(frame) =>
      var (data, tunnel') := Take(tunnel, TunnelBufferSize);
      var head := [Sent(TunnelLink, frame), Received(TunnelLink, data)];
      if data == [] {
        ReadsNone(ClientLink, head);
      } else if OpenFrame(p, key, data).None? {
        ReadsNone(ClientLink, head);
      } else {
        var passed := head + [Sent(ClientLink, OpenFrame(p, key, data).value)];
        ReadsSkip(ClientLink, passed, Relay(p, key, draw, i + 1, client, tunnel').events);
        RelayReadsClient(p, key, draw, i + 1, client, tunnel');
      }
  }

  /**
   * Likewise for the exit node: what `handle_client` reads from the tunnel is a
   * prefix of what the exit node wrote, and all of it when the loop ends on the
   * tunnel's empty read.
   */
  lemma {:induction false} RelayReadsTunnel(p: Primitives, key: AesKey, draw: nat -> Nonce, i: nat,
                                            client: seq<Segment>, tunnel: seq<Segment>)
    ensures var run := Relay(p, key, draw, i, client, tunnel);
            && Reads(TunnelLink, run.events) <= Stream(tunnel)
            && (run.ending == ExitHungUp ==> Reads(TunnelLink, run.events) == Stream(tunnel))
    decreases Volume(client), 0
  {
    var (request, client') := Take(client, ClientBufferSize);
    var rc := Received(ClientLink, request);
    ReadsOne(TunnelLink, rc);
    if request != [] {
      var f := Forward(p, key, draw, i, request, client', tunnel);
      ReadsSkip(TunnelLink, [rc], f.events);
      ForwardReadsTunnel(p, key, draw, i, request, client', tunnel);
    }
  }

  /** The rest of a pass reads the exit node's next frame, then what the passes after it read. */
  lemma {:induction false} ForwardReadsTunnel(p: Primitives, key: AesKey, draw: nat -> Nonce, i: nat,
                                              request: Bytes, client: seq<Segment>, tunnel: seq<Segment>)
    ensures var run := Forward(p, key, draw, i, request, client, tunnel);
            && Reads(TunnelLink, run.events) <= Stream(tunnel)
            && (run.ending == ExitHungUp ==> Reads(TunnelLink, run.events) == Stream(tunnel))
    decreases Volume(client), 1
  {
    match SealFrame(p, key, draw(i), request)
    case None =>
    case Some(frame) =>
      var (data, tunnel') := Take(tunnel, TunnelBufferSize);
      var st, rt := Sent(TunnelLink, frame), Received(TunnelLink, data);
      ReadsOne(TunnelLink, rt);
      ReadsSkip(TunnelLink, [st], [rt]);
      assert [st] + [rt] == [st, rt];
      if data != [] && OpenFrame(p, key, data).Some? {
        var sc := Sent(ClientLink, OpenFrame(p, key, data).value);
        var rest := Relay(p, key, draw, i + 1, client, tunnel');
        ReadsOne(TunnelLink, sc);
        ReadsAppend(TunnelLink, [st, rt], [sc]);
        assert [st, rt] + [sc] == [st, rt, sc];
        ReadsAppend(TunnelLink, [st, rt, sc], rest.events);
        RelayReadsTunnel(p, key, draw, i + 1, client, tunnel');
        PrefixExtend(data, Reads(TunnelLink, rest.events), Stream(tunnel'));
      } else {
        PrefixExtend(data, [], Stream(tunnel'));
        assert data + [] == data;
      }
  }

  /**
   * The shape of every run of `handle_client`: the wrapped key is the first thing
   * written to the exit node, the relaying follows the alternation, the client
   * socket is closed on every path, the exit socket on every path where it was
   * created, and nothing happens after the closes.
   */
  lemma SessionShape(p: Primitives, wrapKey: RsaKey, key: AesKey, draw: nat -> Nonce,
                     dial: Dial, client: seq<Segment>)
    ensures var s := Session(p, wrapKey, key, draw, dial, client);
            var closes := if dial.SocketFails? then 1 else 2;
            && |s.events| >= closes
            && s.events[|s.events| - closes] == Closed(ClientLink)
            && (dial.SocketFails? <==> s.ending == UnboundSortieSocket)
            && (!dial.SocketFails? ==> s.events[|s.events| - 1] == Closed(TunnelLink))
            && (forall k :: 0 <= k < |s.events| - closes ==> !s.events[k].Closed?)
            && (dial.Connects? ==>
                  && s.events[0] == Sent(TunnelLink, p.rsaEncrypt(wrapKey, key))
                  && Alternates(p, key, draw, 0, s.events[1..|s.events| - 2], s.ending))
  {
    if dial.Connects? {
      var relay := Relay(p, key, draw, 0, client, dial.replies);
      var s := Session(p, wrapKey, key, draw, dial, client);
      RelayAlternates(p, key, draw, 0, client, dial.replies);
      AlternatesNoClose(p, key, draw, 0, relay.events, relay.ending);
      Bracketed(Sent(TunnelLink, p.rsaEncrypt(wrapKey, key)), relay.events, Closed(ClientLink), Closed(TunnelLink));
    }
  }

  /**
   * Once connected, a session with a 32-byte key never aborts on an encryption, and
   * every non-empty chunk read from the client between the key and the closes goes
   * out as a frame of its own.
   */
  lemma SessionForwardsEveryChunk(p: Primitives, wrapKey: RsaKey, key: AesKey, draw: nat -> Nonce,
                                  replies: seq<Segment>, client: seq<Segment>)
    requires AeadAcceptsAes256(p)
    ensures var s := Session(p, wrapKey, key, draw, Connects(replies), client);
            && |s.events| >= 3
            && s.ending != Aborted(EncryptFailed)
            && var e := s.events[1..|s.events| - 2];
               forall k ::
                 (0 <= k < |e| && e[k].Received? && e[k].link == ClientLink && e[k].data != [])
                 ==> ForwardedAt(p, key, draw, 0, e, k)
  {
    var relay := Relay(p, key, draw, 0, client, replies);
    RelayForwardsEveryChunk(p, key, draw, 0, client, replies);
    Bracketed(Sent(TunnelLink, p.rsaEncrypt(wrapKey, key)), relay.events, Closed(ClientLink), Closed(TunnelLink));
  }

  /** Under AES-GCM, the exit node opens every frame of a full pass to the client's chunk. */
  lemma ExchangeFrameOpens(p: Primitives, key: AesKey, nonce: Nonce, e: seq<Event>)
    requires AeadInverts(p) && Exchange(p, key, nonce, e)
    ensures OpenFrame(p, key, e[1].data) == Some(e[0].data)
    ensures Split(e[1].data).nonce == nonce
  {
    OpenSealedFrame(p, key, nonce, e[0].data);
  }
}
