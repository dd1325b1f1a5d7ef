/**
 * What one connection handler did, as the journal of its sockets' events, and
 * the bookkeeping shared by the two relays' descriptions of it.
 */
module Trace {
  import opened Bytes
  import opened Transport

  /** The events of a handler up to the point where it stops, and how it stopped. */
  datatype Run<E> = Run(events: seq<Event>, ending: E)

  /** `events` happen first, then `rest`. */
  function Prepend<E>(events: seq<Event>, rest: Run<E>): (r: Run<E>)
    ensures r.ending == rest.ending && |r.events| == |events| + |rest.events|
    ensures r.events[..|events|] == events && r.events[|events|..] == rest.events
  {
    Run(events + rest.events, rest.ending)
  }

  /** Two prepends make one (the pass step of the relay lemmas). */
  lemma PrependPrepend<E>(a: seq<Event>, b: seq<Event>, rest: Run<E>)
    ensures Prepend(a, Prepend(b, rest)) == Prepend(a + b, rest)
  {
    assert a + (b + rest.events) == a + b + rest.events;
  }

  /** The bytes read from `link`, in the order they were read. */
  function Reads(link: Link, e: seq<Event>): Bytes
  {
    if e == [] then []
    else (if e[0].Received? && e[0].link == link then e[0].data else []) + Reads(link, e[1..])
  }

  /** The bytes one event reads from `link`. */
  lemma ReadsOne(link: Link, e: Event)
    ensures Reads(link, [e]) == if e.Received? && e.link == link then e.data else []
  {
    assert [e][1..] == [];
  }

  /** Reading distributes over appending events. */
  lemma {:induction false} ReadsAppend(link: Link, a: seq<Event>, b: seq<Event>)
    ensures Reads(link, a + b) == Reads(link, a) + Reads(link, b)
    decreases |a|
  {
    if a == [] {
      assert a + b == b;
    } else {
      var x := if a[0].Received? && a[0].link == link then a[0].data else [];
      assert (a + b)[0] == a[0];
      assert (a + b)[1..] == a[1..] + b;
      ReadsAppend(link, a[1..], b);
      AppendAssoc(x, Reads(link, a[1..]), Reads(link, b));
    }
  }

  /** None of `e` is a read from `link`. */
  ghost predicate NoReads(link: Link, e: seq<Event>)
  {
    forall k :: 0 <= k < |e| ==> !(e[k].Received? && e[k].link == link)
  }

  /** A stretch with no read of `link` reads nothing from it. */
  lemma {:induction false} ReadsNone(link: Link, e: seq<Event>)
    requires NoReads(link, e)
    ensures Reads(link, e) == []
    decreases |e|
  {
    if e != [] {
      assert forall k :: 0 <= k < |e| - 1 ==> e[1..][k] == e[k + 1];
      ReadsNone(link, e[1..]);
    }
  }

  /** A stretch with no read of `link` can be skipped. */
  lemma ReadsSkip(link: Link, a: seq<Event>, b: seq<Event>)
    requires NoReads(link, a)
    ensures Reads(link, a + b) == Reads(link, b)
  {
    ReadsAppend(link, a, b);
    ReadsNone(link, a);
    assert [] + Reads(link, b) == Reads(link, b);
  }

  /** A common prefix keeps the prefix order. */
  lemma PrefixExtend(x: Bytes, a: Bytes, b: Bytes)
    requires a <= b
    ensures x + a <= x + b
  {
    assert (x + b)[..|x + a|] == x + b[..|a|];
  }

  /** Where the parts of a run that opens with one event and ends with two sit. */
  lemma Bracketed(first: Event, middle: seq<Event>, a: Event, b: Event)
    ensures var s := [first] + middle + [a, b];
            && |s| == |middle| + 3 && s[0] == first && s[|s| - 2] == a && s[|s| - 1] == b
            && s[1..|s| - 2] == middle
            && forall k :: 1 <= k < |s| - 2 ==> s[k] == middle[k - 1]
  {
    var s := [first] + middle + [a, b];
    assert s[1..|s| - 2] == middle;
  }

  /** Where the parts of a run that opens with one event and ends with one sit. */
  lemma Enclosed(first: Event, middle: seq<Event>, last: Event)
    ensures var s := [first] + middle + [last];
            && |s| == |middle| + 2 && s[0] == first && s[|s| - 1] == last
            && s[1..|s| - 1] == middle
            && forall k :: 1 <= k < |s| - 1 ==> s[k] == middle[k - 1]
  {
    var s := [first] + middle + [last];
    assert s[1..|s| - 1] == middle;
  }
}
