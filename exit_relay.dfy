/**
 * The exit node's per-connection handler (`handle_proxy_entree` of
 * proxy_sortie.py): read the RSA-wrapped session key, then answer every frame
 * from the entry node with one frame — the origin's content, or an error text
 * when the request could not be served — until the entry node closes or a call
 * raises, and close the socket on the way out.
 *
 * The handler has one socket, the tunnel to the entry node; its events are
 * journalled on `TunnelLink`.
 */
module ExitRelay {
  import opened Bytes
  import opened Frame
  import opened Crypto
  import opened Transport
  import opened Trace
  import RequestTarget

  /** `client_socket.recv(1024)` for the wrapped key. */
  const KeyBufferSize: nat := 1024
  /** `client_socket.recv(8192)` for each frame. */
  const FrameBufferSize: nat := 8192

  datatype Failure = KeyUnwrapFailed | DecryptFailed | EncryptFailed

  /** How `handle_proxy_entree` ends. */
  datatype Ending =
    | EntryHungUp                 // empty read from the entry node
    | Aborted(failure: Failure)   // an exception caught by the outer `except`

  /**
   * The serving loop from its `i`-th pass on, under the session key `aesKey`:
   * `entry` is what the entry node has still to deliver, `fetch` what the origin
   * answers for each URL, and `draw(i)` the nonce drawn for the `i`-th reply.
   */
  function Serve(p: Primitives, aesKey: Bytes, fetch: string -> RequestTarget.Fetch, draw: nat -> Nonce,
                 i: nat, entry: seq<Segment>): Run<Ending>
    decreases Volume(entry)
  {
    var (data, entry') := Take(entry, FrameBufferSize);
    if data == [] then Run([Received(TunnelLink, [])], EntryHungUp)
    else match OpenFrame(p, aesKey, data)
      case None => Run([Received(TunnelLink, data)], Aborted(DecryptFailed))
      case Some(request) =>
        match SealFrame(p, aesKey, draw(i), RequestTarget.Respond(request, fetch))
        case None => Run([Received(TunnelLink, data)], Aborted(EncryptFailed))
        case Some(frame) =>
          Prepend([Received(TunnelLink, data), Sent(TunnelLink, frame)], Serve(p, aesKey, fetch, draw, i + 1, entry'))
  }

  /** Everything `handle_proxy_entree` does with the exit node's RSA private key `privateKey`. */
  function Connection(p: Primitives, privateKey: RsaKey, fetch: string -> RequestTarget.Fetch,
                      draw: nat -> Nonce, entry: seq<Segment>): Run<Ending>
  {
    var (wrapped, entry') := Take(entry, KeyBufferSize);
    match p.rsaDecrypt(privateKey, wrapped)
    case None => Run([Received(TunnelLink, wrapped), Closed(TunnelLink)], Aborted(KeyUnwrapFailed))
    case Some(aesKey) =>
      var serve := Serve(p, aesKey, fetch, draw, 0, entry');
      Run([Received(TunnelLink, wrapped)] + serve.events + [Closed(TunnelLink)], serve.ending)
  }

  /** The loop body of `handle_proxy_entree`: one frame read and, unless it ends the loop, one frame written. */
  method ServeOnce(entry: Socket, p: Primitives, aesKey: Bytes, fetch: string -> RequestTarget.Fetch,
                   draw: nat -> Nonce, i: nat)
    returns (stop: Option<Ending>, ghost delta: seq<Event>)
    requires entry.link == TunnelLink
    modifies entry, entry.journal
    ensures entry.journal.events == old(entry.journal.events) + delta
    ensures stop.Some? ==> Serve(p, aesKey, fetch, draw, i, old(entry.inFlight)) == Run(delta, stop.value)
    ensures stop.None? ==>
              && Volume(entry.inFlight) < Volume(old(entry.inFlight))
              && Serve(p, aesKey, fetch, draw, i, old(entry.inFlight))
                 == Prepend(delta, Serve(p, aesKey, fetch, draw, i + 1, entry.inFlight))
    ensures entry.closed == old(entry.closed)
  {
    ghost var start := entry.journal.events;
    var data := entry.Recv(FrameBufferSize);
    if data == [] {
      return Some(EntryHungUp), [Received(TunnelLink, [])];
    }
    var parts := Split(data);
    var request := p.aesDecrypt(aesKey, parts.nonce, parts.ciphertext, parts.tag);
    if request.None? {
      return Some(Aborted(DecryptFailed)), [Received(TunnelLink, data)];
    }
    var response := RequestTarget.Respond(request.value, fetch);
    var nonce := draw(i);
    var sealed := p.aesEncrypt(aesKey, nonce, response);
    if sealed.None? {
      return Some(Aborted(EncryptFailed)), [Received(TunnelLink, data)];
    }
    var frame := nonce + sealed.value.tag + sealed.value.ciphertext;
    entry.SendAll(frame);
    AppendAssoc(start, [Received(TunnelLink, data)], [Sent(TunnelLink, frame)]);
    return None, [Received(TunnelLink, data), Sent(TunnelLink, frame)];
  }

  /** The `while True` loop of `handle_proxy_entree`. */
  method ServeLoop(entry: Socket, p: Primitives, aesKey: Bytes, fetch: string -> RequestTarget.Fetch,
                   draw: nat -> Nonce)
    returns (ending: Ending)
    requires entry.link == TunnelLink
    modifies entry, entry.journal
    ensures entry.journal.events == old(entry.journal.events) + Serve(p, aesKey, fetch, draw, 0, old(entry.inFlight)).events
    ensures ending == Serve(p, aesKey, fetch, draw, 0, old(entry.inFlight)).ending
    ensures entry.closed == old(entry.closed)
  {
    var journal := entry.journal;
    ghost var before := journal.events;
    ghost var whole := Serve(p, aesKey, fetch, draw, 0, entry.inFlight);
    ghost var done: seq<Event> := [];
    var i := 0;
    while true
      invariant journal.events == before + done
      invariant whole == Prepend(done, Serve(p, aesKey, fetch, draw, i, entry.inFlight))
      invariant entry.closed == old(entry.closed)
      decreases Volume(entry.inFlight)
    {
      var stop, delta := ServeOnce(entry, p, aesKey, fetch, draw, i);
      if stop.Some? {
        AppendAssoc(before, done, delta);
        ending := stop.value;
        break;
      }
      PrependPrepend(done, delta, Serve(p, aesKey, fetch, draw, i + 1, entry.inFlight));
      AppendAssoc(before, done, delta);
      done := done + delta;
      i := i + 1;
    }
  }

  /**
   * `handle_proxy_entree(client_socket)`, with the exit node's RSA private key
   * `privateKey`; the nonces `aes_encrypt` draws are `draw(0)`, `draw(1)`, ...
   */
  method HandleProxyEntree(entry: Socket, p: Primitives, privateKey: RsaKey,
                           fetch: string -> RequestTarget.Fetch, draw: nat -> Nonce)
    returns (ending: Ending)
    requires entry.link == TunnelLink
    modifies entry, entry.journal
    ensures entry.journal.events
            == old(entry.journal.events) + Connection(p, privateKey, fetch, draw, old(entry.inFlight)).events
    ensures ending == Connection(p, privateKey, fetch, draw, old(entry.inFlight)).ending
    ensures entry.closed
  {
    var journal := entry.journal;
    ghost var start := journal.events;
    var wrapped := entry.Recv(KeyBufferSize);
    var aesKey := p.rsaDecrypt(privateKey, wrapped);
    if aesKey.None? {
      entry.Close();
      AppendAssoc(start, [Received(TunnelLink, wrapped)], [Closed(TunnelLink)]);
      return Aborted(KeyUnwrapFailed);
    }
    ending := ServeLoop(entry, p, aesKey.value, fetch, draw);
    ghost var loop := Serve(p, aesKey.value, fetch, draw, 0, Take(old(entry.inFlight), KeyBufferSize).1).events;
    entry.Close();
    AppendAssoc(start, [Received(TunnelLink, wrapped)], loop);
    AppendAssoc(start, [Received(TunnelLink, wrapped)] + loop, [Closed(TunnelLink)]);
  }

  /** What the handler answers to each decrypted request: `response_data`, from the origin's contents for its URL. */
  function Reply(fetch: string -> RequestTarget.Fetch): Bytes -> Bytes
  {
    request => RequestTarget.Respond(request, fetch)
  }

  // ---------------------------------------------------------------------------
  // The loop's output, described event by event.

  /** A non-empty `client_socket.recv(8192)`. */
  ghost predicate FrameIn(e: Event)
  {
    e.Received? && e.link == TunnelLink && 0 < |e.data| <= FrameBufferSize
  }

  /**
   * One full pass at the head of `e`: a frame from the entry node that opens, and
   * one frame back sealing, under `nonce`, the answer to the request it carried.
   */
  ghost predicate Answer(p: Primitives, aesKey: Bytes, reply: Bytes -> Bytes, nonce: Nonce, e: seq<Event>)
  {
    && |e| >= 2
    && FrameIn(e[0]) && OpenFrame(p, aesKey, e[0].data).Some?
    && e[1].Sent? && e[1].link == TunnelLink
    && SealFrame(p, aesKey, nonce, reply(OpenFrame(p, aesKey, e[0].data).value)) == Some(e[1].data)
  }

  /** The pass that leaves the loop, for each way of leaving it. */
  ghost predicate LastServe(p: Primitives, aesKey: Bytes, reply: Bytes -> Bytes, nonce: Nonce,
                            e: seq<Event>, ending: Ending)
  {
    match ending
    case EntryHungUp => e == [Received(TunnelLink, [])]
    case Aborted(DecryptFailed) => |e| == 1 && FrameIn(e[0]) && OpenFrame(p, aesKey, e[0].data).None?
    case Aborted(EncryptFailed) =>
      && |e| == 1 && FrameIn(e[0]) && OpenFrame(p, aesKey, e[0].data).Some?
      && SealFrame(p, aesKey, nonce, reply(OpenFrame(p, aesKey, e[0].data).value)).None?
    case _ => false
  }

  /** One answer per frame, the `i`-th under nonce `draw(i)`, then one last pass. */
  ghost predicate Answers(p: Primitives, aesKey: Bytes, reply: Bytes -> Bytes, draw: nat -> Nonce,
                          i: nat, e: seq<Event>, ending: Ending)
    decreases |e|
  {
    if |e| >= 2 && Answer(p, aesKey, reply, draw(i), e) then Answers(p, aesKey, reply, draw, i + 1, e[2..], ending)
    else LastServe(p, aesKey, reply, draw(i), e, ending)
  }

  /**
   * Every frame that decrypts is answered by exactly one frame, whatever the origin
   * does: a failing request yields the error text, not silence. The one exception is
   * the last pass, which may stop on a failed encryption; the last pass fits the
   * ending. `ServeAnswersEveryFrame` rules that exception out for a 32-byte key.
   */
  lemma {:induction false} ServeAnswers(p: Primitives, aesKey: Bytes, fetch: string -> RequestTarget.Fetch,
                                        draw: nat -> Nonce, i: nat, entry: seq<Segment>)
    ensures Answers(p, aesKey, Reply(fetch), draw, i, Serve(p, aesKey, fetch, draw, i, entry).events,
                    Serve(p, aesKey, fetch, draw, i, entry).ending)
    decreases Volume(entry)
  {
    var run := Serve(p, aesKey, fetch, draw, i, entry);
    var (data, entry') := Take(entry, FrameBufferSize);
    if data != [] {
      var request := OpenFrame(p, aesKey, data);
      if request.Some? {
        var sealed := SealFrame(p, aesKey, draw(i), RequestTarget.Respond(request.value, fetch));
        if sealed.Some? {
          var rest := Serve(p, aesKey, fetch, draw, i + 1, entry');
          assert run.events[..2] == [Received(TunnelLink, data), Sent(TunnelLink, sealed.value)];
          assert run.events[2..] == rest.events;
          assert Answer(p, aesKey, Reply(fetch), draw(i), run.events);
          ServeAnswers(p, aesKey, fetch, draw, i + 1, entry');
        }
      }
    }
  }

  /** Serving never closes the socket: closing is left to the `finally`. */
  lemma {:induction false} AnswersNoClose(p: Primitives, aesKey: Bytes, reply: Bytes -> Bytes,
                                          draw: nat -> Nonce, i: nat, e: seq<Event>, ending: Ending)
    requires Answers(p, aesKey, reply, draw, i, e, ending)
    ensures forall k :: 0 <= k < |e| ==> !e[k].Closed?
    ensures ending != Aborted(KeyUnwrapFailed) && e != []
    decreases |e|
  {
    if |e| >= 2 && Answer(p, aesKey, reply, draw(i), e) {
      AnswersNoClose(p, aesKey, reply, draw, i + 1, e[2..], ending);
      assert forall k :: 2 <= k < |e| ==> e[k] == e[2..][k - 2];
    }
  }

  /**
   * With a 32-byte session key AES-GCM does not raise, so a request that decrypted
   * is always answered: the loop never stops on a failed encryption.
   */
  lemma {:induction false} ServeNeverEncryptFails(p: Primitives, aesKey: Bytes, fetch: string -> RequestTarget.Fetch,
                                                  draw: nat -> Nonce, i: nat, entry: seq<Segment>)
    requires AeadAcceptsAes256(p) && |aesKey| == KeyLength
    ensures Serve(p, aesKey, fetch, draw, i, entry).ending != Aborted(EncryptFailed)
    decreases Volume(entry)
  {
    var (data, entry') := Take(entry, FrameBufferSize);
    if data != [] && OpenFrame(p, aesKey, data).Some? {
      assert p.aesEncrypt(aesKey, draw(i), RequestTarget.Respond(OpenFrame(p, aesKey, data).value, fetch)).Some?;
      ServeNeverEncryptFails(p, aesKey, fetch, draw, i + 1, entry');
    }
  }

  /** The frame at `k` is followed by its answer, sealed under the nonce of its pass. */
  ghost predicate AnsweredAt(p: Primitives, aesKey: Bytes, reply: Bytes -> Bytes, draw: nat -> Nonce,
                             i: nat, e: seq<Event>, k: nat)
    requires k < |e| && e[k].Received? && OpenFrame(p, aesKey, e[k].data).Some?
  {
    && k % 2 == 0 && k + 1 < |e| && e[k + 1].Sent? && e[k + 1].link == TunnelLink
    && SealFrame(p, aesKey, draw(i + k / 2), reply(OpenFrame(p, aesKey, e[k].data).value))
       == Some(e[k + 1].data)
  }

  /** An answer found in the rest of the alternation is one in the whole of it, two events and one nonce on. */
  lemma AnsweredLater(p: Primitives, aesKey: Bytes, reply: Bytes -> Bytes, draw: nat -> Nonce,
                      i: nat, e: seq<Event>, k: nat)
    requires 2 <= k < |e| && e[k].Received? && OpenFrame(p, aesKey, e[k].data).Some?
    requires AnsweredAt(p, aesKey, reply, draw, i + 1, e[2..], k - 2)
    ensures AnsweredAt(p, aesKey, reply, draw, i, e, k)
  {
    assert e[k + 1] == e[2..][k - 1];
    assert i + 1 + (k - 2) / 2 == i + k / 2;
  }

  /**
   * A frame that opens, read by a loop that did not stop on a failed encryption,
   * lies in a full pass: at its head, or further on.
   */
  lemma OpenedFrameInPass(p: Primitives, aesKey: Bytes, reply: Bytes -> Bytes, draw: nat -> Nonce,
                          i: nat, e: seq<Event>, ending: Ending, k: nat)
    requires Answers(p, aesKey, reply, draw, i, e, ending) && ending != Aborted(EncryptFailed)
    requires k < |e| && e[k].Received? && e[k].data != [] && OpenFrame(p, aesKey, e[k].data).Some?
    ensures |e| >= 2 && Answer(p, aesKey, reply, draw(i), e) && k != 1
    ensures k == 0 ==> AnsweredAt(p, aesKey, reply, draw, i, e, k)
  {
  }

  /**
   * Unless the loop stopped on a failed encryption, every non-empty frame it read
   * that decrypts is the start of a pass and is answered by exactly the next event.
   */
  lemma {:induction false} OpenedFrameAnswered(p: Primitives, aesKey: Bytes, reply: Bytes -> Bytes,
                                               draw: nat -> Nonce, i: nat, e: seq<Event>, ending: Ending, k: nat)
    requires Answers(p, aesKey, reply, draw, i, e, ending) && ending != Aborted(EncryptFailed)
    requires k < |e| && e[k].Received? && e[k].data != [] && OpenFrame(p, aesKey, e[k].data).Some?
    ensures AnsweredAt(p, aesKey, reply, draw, i, e, k)
    decreases k
  {
    OpenedFrameInPass(p, aesKey, reply, draw, i, e, ending, k);
    if k != 0 {
      var rest := e[2..];
      assert e[k] == rest[k - 2];
      OpenedFrameAnswered(p, aesKey, reply, draw, i + 1, rest, ending, k - 2);
      AnsweredLater(p, aesKey, reply, draw, i, e, k);
    }
  }

  /** The same for all frames of the alternation at once. */
  lemma EveryOpenedFrameAnswered(p: Primitives, aesKey: Bytes, reply: Bytes -> Bytes,
                                 draw: nat -> Nonce, i: nat, e: seq<Event>, ending: Ending)
    requires Answers(p, aesKey, reply, draw, i, e, ending) && ending != Aborted(EncryptFailed)
    ensures forall k ::
              (0 <= k < |e| && e[k].Received? && e[k].data != [] && OpenFrame(p, aesKey, e[k].data).Some?)
              ==> AnsweredAt(p, aesKey, reply, draw, i, e, k)
  {
    forall k | 0 <= k < |e| && e[k].Received? && e[k].data != [] && OpenFrame(p, aesKey, e[k].data).Some?
      ensures AnsweredAt(p, aesKey, reply, draw, i, e, k)
    {
      OpenedFrameAnswered(p, aesKey, reply, draw, i, e, ending, k);
    }
  }

  /** Every frame `handle_proxy_entree` reads that decrypts under a 32-byte key gets exactly one answer frame. */
  lemma ServeAnswersEveryFrame(p: Primitives, aesKey: Bytes, fetch: string -> RequestTarget.Fetch,
                               draw: nat -> Nonce, i: nat, entry: seq<Segment>)
    requires AeadAcceptsAes256(p) && |aesKey| == KeyLength
    ensures var run := Serve(p, aesKey, fetch, draw, i, entry);
            && run.ending != Aborted(EncryptFailed)
            && forall k ::
                 (0 <= k < |run.events| && run.events[k].Received? && run.events[k].data != []
                  && OpenFrame(p, aesKey, run.events[k].data).Some?)
                 ==> AnsweredAt(p, aesKey, Reply(fetch), draw, i, run.events, k)
  {
    var run := Serve(p, aesKey, fetch, draw, i, entry);
    ServeNeverEncryptFails(p, aesKey, fetch, draw, i, entry);
    ServeAnswers(p, aesKey, fetch, draw, i, entry);
    EveryOpenedFrameAnswered(p, aesKey, Reply(fetch), draw, i, run.events, run.ending);
  }

  /**
   * Nothing the entry node writes is lost or reordered: what the loop reads is a
   * prefix of the stream, and all of it when the loop ends on the empty read.
   */
  lemma {:induction false} ServeReads(p: Primitives, aesKey: Bytes, fetch: string -> RequestTarget.Fetch,
                                      draw: nat -> Nonce, i: nat, entry: seq<Segment>)
    ensures var run := Serve(p, aesKey, fetch, draw, i, entry);
            && Reads(TunnelLink, run.events) <= Stream(entry)
            && (run.ending == EntryHungUp ==> Reads(TunnelLink, run.events) == Stream(entry))
    decreases Volume(entry)
  {
    var run := Serve(p, aesKey, fetch, draw, i, entry);
    var (data, entry') := Take(entry, FrameBufferSize);
    var rt := Received(TunnelLink, data);
    ReadsOne(TunnelLink, rt);
    if data != [] {
      var request := OpenFrame(p, aesKey, data);
      var sealed := if request.Some? then SealFrame(p, aesKey, draw(i), RequestTarget.Respond(request.value, fetch))
                    else None;
      if request.Some? && sealed.Some? {
        var st := Sent(TunnelLink, sealed.value);
        var rest := Serve(p, aesKey, fetch, draw, i + 1, entry');
        ReadsOne(TunnelLink, st);
        ReadsAppend(TunnelLink, [rt], [st]);
        assert [rt] + [st] == [rt, st];
        ReadsAppend(TunnelLink, [rt, st], rest.events);
        ServeReads(p, aesKey, fetch, draw, i + 1, entry');
        PrefixExtend(data, Reads(TunnelLink, rest.events), Stream(entry'));
      } else {
        assert run.events == [rt];
        PrefixExtend(data, [], Stream(entry'));
        assert data + [] == data;
      }
    }
  }

  /**
   * The shape of every run of `handle_proxy_entree`: it starts with the key read,
   * ends with the close, closes nothing before, gives up right after the key read
   * exactly when the key does not unwrap, and otherwise answers frame by frame
   * under the unwrapped key.
   */
  lemma ConnectionShape(p: Primitives, privateKey: RsaKey, fetch: string -> RequestTarget.Fetch,
                        draw: nat -> Nonce, entry: seq<Segment>)
    ensures var c := Connection(p, privateKey, fetch, draw, entry);
            var wrapped := Take(entry, KeyBufferSize).0;
            && |c.events| >= 2
            && c.events[0] == Received(TunnelLink, wrapped)
            && c.events[|c.events| - 1] == Closed(TunnelLink)
            && (forall k :: 0 <= k < |c.events| - 1 ==> !c.events[k].Closed?)
            && (c.ending == Aborted(KeyUnwrapFailed) <==> p.rsaDecrypt(privateKey, wrapped).None?)
            && (p.rsaDecrypt(privateKey, wrapped).Some? ==>
                  Answers(p, p.rsaDecrypt(privateKey, wrapped).value, Reply(fetch), draw, 0,
                          c.events[1..|c.events| - 1], c.ending))
  {
    var (wrapped, entry') := Take(entry, KeyBufferSize);
    var aesKey := p.rsaDecrypt(privateKey, wrapped);
    if aesKey.Some? {
      var serve := Serve(p, aesKey.value, fetch, draw, 0, entry');
      var c := Connection(p, privateKey, fetch, draw, entry);
      ServeAnswers(p, aesKey.value, fetch, draw, 0, entry');
      AnswersNoClose(p, aesKey.value, Reply(fetch), draw, 0, serve.events, serve.ending);
      Enclosed(Received(TunnelLink, wrapped), serve.events, Closed(TunnelLink));
    }
  }

  /**
   * When the entry node's first segment is a session key wrapped with the matching
   * public key, the exit node serves under exactly that key.
   */
  lemma ConnectionUnwrapsKey(p: Primitives, publicKey: RsaKey, privateKey: RsaKey, key: AesKey,
                             fetch: string -> RequestTarget.Fetch, draw: nat -> Nonce, entry: seq<Segment>)
    requires RsaMatches(p, publicKey, privateKey)
    requires entry != [] && entry[0] == p.rsaEncrypt(publicKey, key) && |entry[0]| <= KeyBufferSize
    ensures var serve := Serve(p, key, fetch, draw, 0, entry[1..]);
            Connection(p, privateKey, fetch, draw, entry)
            == Run([Received(TunnelLink, entry[0])] + serve.events + [Closed(TunnelLink)], serve.ending)
  {
  }

  /**
   * When the key was wrapped with the public key of another pair — as the entry node
   * does when it wraps with its own — the exit node reads the key, closes, and
   * serves nothing.
   */
  lemma ConnectionRejectsForeignKey(p: Primitives, publicKey: RsaKey, privateKey: RsaKey, key: AesKey,
                                    fetch: string -> RequestTarget.Fetch, draw: nat -> Nonce, entry: seq<Segment>)
    requires RsaRejects(p, publicKey, privateKey)
    requires entry != [] && entry[0] == p.rsaEncrypt(publicKey, key) && |entry[0]| <= KeyBufferSize
    ensures Connection(p, privateKey, fetch, draw, entry)
            == Run([Received(TunnelLink, entry[0]), Closed(TunnelLink)], Aborted(KeyUnwrapFailed))
  {
  }

  /**
   * A session key wrapped under the matching public key is served in full: the
   * connection does not abort on the key or on an encryption, and between the key
   * read and the close every frame that decrypts under the key is answered.
   */
  lemma ConnectionAnswersEveryFrame(p: Primitives, publicKey: RsaKey, privateKey: RsaKey, key: AesKey,
                                    fetch: string -> RequestTarget.Fetch, draw: nat -> Nonce, entry: seq<Segment>)
    requires RsaMatches(p, publicKey, privateKey) && AeadAcceptsAes256(p)
    requires entry != [] && entry[0] == p.rsaEncrypt(publicKey, key) && |entry[0]| <= KeyBufferSize
    ensures var c := Connection(p, privateKey, fetch, draw, entry);
            && |c.events| >= 2
            && c.ending != Aborted(KeyUnwrapFailed) && c.ending != Aborted(EncryptFailed)
            && var e := c.events[1..|c.events| - 1];
               forall k ::
                 (0 <= k < |e| && e[k].Received? && e[k].data != [] && OpenFrame(p, key, e[k].data).Some?)
                 ==> AnsweredAt(p, key, Reply(fetch), draw, 0, e, k)
  {
    var serve := Serve(p, key, fetch, draw, 0, entry[1..]);
    ConnectionUnwrapsKey(p, publicKey, privateKey, key, fetch, draw, entry);
    ServeAnswersEveryFrame(p, key, fetch, draw, 0, entry[1..]);
    AnswersNoClose(p, key, Reply(fetch), draw, 0, serve.events, serve.ending) by {
      ServeAnswers(p, key, fetch, draw, 0, entry[1..]);
    }
    Enclosed(Received(TunnelLink, entry[0]), serve.events, Closed(TunnelLink));
  }

  /**
   * OAEP with the 2048-bit key accepts only a full 256-byte block: a hang-up before
   * the key, or any other first read of the wrong size, ends the connection at once.
   */
  lemma ConnectionRejectsShortKey(p: Primitives, privateKey: RsaKey, fetch: string -> RequestTarget.Fetch,
                                  draw: nat -> Nonce, entry: seq<Segment>)
    requires RsaNeedsFullBlock(p, privateKey)
    requires |Take(entry, KeyBufferSize).0| != RsaBlockLength
    ensures Connection(p, privateKey, fetch, draw, entry)
            == Run([Received(TunnelLink, Take(entry, KeyBufferSize).0), Closed(TunnelLink)], Aborted(KeyUnwrapFailed))
  {
  }

  /** Under AES-GCM, the entry node opens every answer frame to the answer it seals. */
  lemma AnswerFrameOpens(p: Primitives, aesKey: Bytes, reply: Bytes -> Bytes, nonce: Nonce,
                         e: seq<Event>)
    requires AeadInverts(p) && Answer(p, aesKey, reply, nonce, e)
    ensures OpenFrame(p, aesKey, e[1].data)
            == Some(reply(OpenFrame(p, aesKey, e[0].data).value))
  {
    OpenSealedFrame(p, aesKey, nonce, reply(OpenFrame(p, aesKey, e[0].data).value));
  }
}
