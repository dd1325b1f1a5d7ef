/**
 * Blocking TCP sockets as the two relays use them: `recv(bufsize)`, `sendall` and
 * `close`. Every socket writes what it does into one shared journal, so that the
 * order of operations ACROSS the sockets of one handler is observable.
 *
 * What the peer writes is given in advance as a queue of non-empty segments.
 * `recv(bufsize)` returns the next segment, clipped to `bufsize` bytes (the rest
 * stays queued); once the queue is empty the peer has closed and `recv` returns
 * no bytes. A segment that fits the buffer is thus delivered whole, which is
 * what the relays assume of a frame.
 */
module Transport {
  import opened Bytes

  type Segment = s: Bytes | |s| > 0 witness [0]

  /** Which socket of a handler an event concerns: the local peer or the tunnel to the other node. */
  datatype Link = ClientLink | TunnelLink

  datatype Event =
    | Received(link: Link, data: Bytes)
    | Sent(link: Link, data: Bytes)
    | Closed(link: Link)

  /** Bytes still in flight. */
  function Volume(q: seq<Segment>): nat
  {
    if q == [] then 0 else |q[0]| + Volume(q[1..])
  }

  /** The byte stream a queue stands for. */
  function Stream(q: seq<Segment>): Bytes
  {
    if q == [] then [] else q[0] + Stream(q[1..])
  }

  /** One `recv(bufsize)`: the bytes it returns and the queue it leaves. */
  function Take(q: seq<Segment>, bufsize: nat): (r: (Bytes, seq<Segment>))
    requires bufsize > 0
    ensures |r.0| <= bufsize
    ensures r.0 == [] <==> q == []
    ensures r.0 + Stream(r.1) == Stream(q)
    ensures Volume(r.1) + |r.0| == Volume(q)
    ensures q != [] && |q[0]| <= bufsize ==> r.0 == q[0]
  {
    if q == [] then ([], [])
    else if |q[0]| <= bufsize then (q[0], q[1..])
    else
      var rest: Segment := q[0][bufsize..];
      assert q[0] == q[0][..bufsize] + rest;
      assert ([rest] + q[1..])[1..] == q[1..];
      (q[0][..bufsize], [rest] + q[1..])
  }

  /** The order of everything the sockets of one handler did. */
  class Journal {
    var events: seq<Event>

    constructor ()
      ensures events == []
    {
      events := [];
    }
  }

  class Socket {
    const link: Link
    const journal: Journal
    /** What the peer has written and this side has not read yet. */
    var inFlight: seq<Segment>
    var closed: bool

    constructor (link: Link, journal: Journal, inFlight: seq<Segment>)
      ensures this.link == link && this.journal == journal
      ensures this.inFlight == inFlight && !closed
    {
      this.link := link;
      this.journal := journal;
      this.inFlight := inFlight;
      closed := false;
    }

    /** `recv(bufsize)`. */
    method Recv(bufsize: nat) returns (data: Bytes)
      requires bufsize > 0
      modifies this, journal
      ensures (data, inFlight) == Take(old(inFlight), bufsize)
      ensures closed == old(closed)
      ensures journal.events == old(journal.events) + [Received(link, data)]
    {
      var r := Take(inFlight, bufsize);
      data, inFlight := r.0, r.1;
      journal.events := journal.events + [Received(link, data)];
    }

    /** `sendall(data)`: the peer receives all of `data`. */
    method SendAll(data: Bytes)
      modifies journal
      ensures journal.events == old(journal.events) + [Sent(link, data)]
    {
      journal.events := journal.events + [Sent(link, data)];
    }

    /** `close()`. */
    method Close()
      modifies this, journal
      ensures closed && inFlight == old(inFlight)
      ensures journal.events == old(journal.events) + [Closed(link)]
    {
      closed := true;
      journal.events := journal.events + [Closed(link)];
    }
  }
}
