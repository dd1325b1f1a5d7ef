/**
 * The two Python relays wired to each other: what the entry node's loop and the
 * exit node's loop guarantee together when each receives, in one read, the frame
 * the other sent.
 */
module Tunnel {
  import opened Bytes
  import opened Frame
  import opened Crypto
  import opened Transport
  import EntryRelay
  import ExitRelay
  import RequestTarget

  /**
   * A full pass of the entry node and a full pass of the exit node under the same
   * session key, each reading the frame the other wrote: the exit node serves the
   * client's own chunk, and the client gets back exactly the exit node's answer to it.
   */
  lemma PassesCompose(p: Primitives, key: AesKey, entryNonce: Nonce, exitNonce: Nonce,
                      fetch: string -> RequestTarget.Fetch, entry: seq<Event>, exit: seq<Event>)
    requires AeadInverts(p)
    requires EntryRelay.Exchange(p, key, entryNonce, entry)
    requires ExitRelay.Answer(p, key, ExitRelay.Reply(fetch), exitNonce, exit)
    requires exit[0].data == entry[1].data && entry[2].data == exit[1].data
    ensures OpenFrame(p, key, exit[0].data) == Some(entry[0].data)
    ensures entry[3].data == RequestTarget.Respond(entry[0].data, fetch)
  {
    EntryRelay.ExchangeFrameOpens(p, key, entryNonce, entry);
    ExitRelay.AnswerFrameOpens(p, key, ExitRelay.Reply(fetch), exitNonce, exit);
  }
}
