/**
 * The response-header filter of the Rust exit node (`handle_proxy` in
 * exit_proxy/src/main.rs): of the origin's headers, keep those whose name is
 * none of `content-length` and the hop-by-hop names of section 13.5.1 of
 * RFC 2616, compared ASCII-case-insensitively, and whose value is visible ASCII.
 *
 * The headers come in the order the `HeaderMap` iterates them, which is not
 * necessarily the order they arrived in: every value of a repeated name follows
 * the first occurrence of that name. "In order" below means that order.
 */
module ResponseHeaders {
  import opened Bytes

  /** A header as the origin sent it: the name's text and the value's raw bytes. */
  datatype Header = Header(name: string, value: Bytes)

  /** `u8::to_ascii_lowercase` on one character: only `A`..`Z` change. */
  function AsciiLower(c: char): char
  {
    if 'A' <= c <= 'Z' then (c as int + 32) as char else c
  }

  /** `str::eq_ignore_ascii_case`. */
  predicate EqIgnoreAsciiCase(a: string, b: string)
  {
    |a| == |b| && forall i :: 0 <= i < |a| ==> AsciiLower(a[i]) == AsciiLower(b[i])
  }

  /** The names the filter drops, in the order it tests them. */
  const Dropped: seq<string> :=
    ["content-length", "transfer-encoding", "connection", "keep-alive", "proxy-authenticate",
     "proxy-authorization", "te", "trailer", "upgrade"]

  /** `name` is one of the hop-by-hop headers, in any ASCII case. */
  predicate IsDropped(name: string)
  {
    exists k :: 0 <= k < |Dropped| && EqIgnoreAsciiCase(name, Dropped[k])
  }

  /** ASCII lower-casing of a whole name (for `EqIgnoreAsciiCaseLower`). */
  function Lower(s: string): (r: string)
    ensures |r| == |s| && forall i :: 0 <= i < |s| ==> r[i] == AsciiLower(s[i])
  {
    seq(|s|, i requires 0 <= i < |s| => AsciiLower(s[i]))
  }

  /** Case-insensitive equality is equality of the lower-cased names. */
  lemma EqIgnoreAsciiCaseLower(a: string, b: string)
    ensures EqIgnoreAsciiCase(a, b) <==> Lower(a) == Lower(b)
  {
    if Lower(a) == Lower(b) {
      assert forall i :: 0 <= i < |a| ==> Lower(a)[i] == Lower(b)[i];
    }
  }

  /** The nine names are written in lower case. */
  lemma DroppedLowerCase()
    ensures forall k :: 0 <= k < |Dropped| ==> Lower(Dropped[k]) == Dropped[k]
  {
    forall k | 0 <= k < |Dropped|
      ensures Lower(Dropped[k]) == Dropped[k]
    {
      var d := Dropped[k];
      assert forall i :: 0 <= i < |d| ==> !('A' <= d[i] <= 'Z');
    }
  }

  /** A name is dropped exactly when its lower-case form is one of the nine. */
  lemma DroppedByLowerName(name: string)
    ensures IsDropped(name) <==> Lower(name) in Dropped
  {
    DroppedLowerCase();
    if IsDropped(name) {
      var k :| 0 <= k < |Dropped| && EqIgnoreAsciiCase(name, Dropped[k]);
      EqIgnoreAsciiCaseLower(name, Dropped[k]);
    }
    if Lower(name) in Dropped {
      var k :| 0 <= k < |Dropped| && Dropped[k] == Lower(name);
      EqIgnoreAsciiCaseLower(name, Dropped[k]);
    }
  }

  /** Dropping does not depend on letter case. */
  lemma DroppedInAnyCase(a: string, b: string)
    requires EqIgnoreAsciiCase(a, b)
    ensures IsDropped(a) <==> IsDropped(b)
  {
    EqIgnoreAsciiCaseLower(a, b);
    DroppedByLowerName(a);
    DroppedByLowerName(b);
  }

  /** The nine comparisons of the source, one by one, decide `IsDropped`. */
  lemma DroppedByNineTests(k: string)
    ensures IsDropped(k) <==>
              || EqIgnoreAsciiCase(k, "content-length") || EqIgnoreAsciiCase(k, "transfer-encoding")
              || EqIgnoreAsciiCase(k, "connection") || EqIgnoreAsciiCase(k, "keep-alive")
              || EqIgnoreAsciiCase(k, "proxy-authenticate") || EqIgnoreAsciiCase(k, "proxy-authorization")
              || EqIgnoreAsciiCase(k, "te") || EqIgnoreAsciiCase(k, "trailer") || EqIgnoreAsciiCase(k, "upgrade")
  {
    assert Dropped[0] == "content-length" && Dropped[1] == "transfer-encoding" && Dropped[2] == "connection";
    assert Dropped[3] == "keep-alive" && Dropped[4] == "proxy-authenticate" && Dropped[5] == "proxy-authorization";
    assert Dropped[6] == "te" && Dropped[7] == "trailer" && Dropped[8] == "upgrade";
  }

  /** `HeaderValue::to_str` accepts tab and the visible ASCII range. */
  predicate Visible(b: Byte)
  {
    b == 9 || 32 <= b < 127
  }

  /** Each byte read as the character of the same code. */
  function AsText(v: Bytes): (s: string)
    ensures |s| == |v| && forall i :: 0 <= i < |v| ==> s[i] as int == v[i]
  {
    seq(|v|, i requires 0 <= i < |v| => v[i] as char)
  }

  /** `HeaderValue::to_str`: the value as text when every byte is visible ASCII. */
  function ToStr(v: Bytes): (r: Option<string>)
    ensures r.Some? <==> forall i :: 0 <= i < |v| ==> Visible(v[i])
    ensures r.Some? ==> r.value == AsText(v)
  {
    if forall i :: 0 <= i < |v| ==> Visible(v[i]) then Some(AsText(v)) else None
  }

  /** What the filter pushes for one header, if anything. */
  function Keep(h: Header): Option<(string, string)>
  {
    if IsDropped(h.name) then None
    else match ToStr(h.value)
      case None => None
      case Some(v) => Some((h.name, v))
  }

  /** The headers `ShapeResponse` keeps, in their order, as name/value text pairs. */
  function KeptHeaders(hs: seq<Header>): seq<(string, string)>
  {
    if hs == [] then []
    else (match Keep(hs[0]) case None => [] case Some(kv) => [kv]) + KeptHeaders(hs[1..])
  }

  /** Keeping distributes over appending one header (the loop step of `FilterResponseHeaders`). */
  lemma {:induction false} KeptAppend(hs: seq<Header>, h: Header)
    ensures KeptHeaders(hs + [h]) == KeptHeaders(hs) + (match Keep(h) case None => [] case Some(kv) => [kv])
    decreases |hs|
  {
    if hs == [] {
      assert hs + [h] == [h] && [h][1..] == [];
    } else {
      var x := match Keep(hs[0]) case None => [] case Some(kv) => [kv];
      var y := match Keep(h) case None => [] case Some(kv) => [kv];
      assert (hs + [h])[0] == hs[0] && (hs + [h])[1..] == hs[1..] + [h];
      KeptAppend(hs[1..], h);
      AppendAssoc(x, KeptHeaders(hs[1..]), y);
    }
  }

  /** The `for (k, v) in res.headers()` loop that fills `headers`. */
  method FilterResponseHeaders(hs: seq<Header>) returns (headers: seq<(string, string)>)
    ensures headers == KeptHeaders(hs)
  {
    headers := [];
    for i := 0 to |hs|
      invariant headers == KeptHeaders(hs[..i])
    {
      var k := hs[i].name;
      DroppedByNineTests(k);
      if !EqIgnoreAsciiCase(k, "content-length")
         && !EqIgnoreAsciiCase(k, "transfer-encoding")
         && !EqIgnoreAsciiCase(k, "connection")
         && !EqIgnoreAsciiCase(k, "keep-alive")
         && !EqIgnoreAsciiCase(k, "proxy-authenticate")
         && !EqIgnoreAsciiCase(k, "proxy-authorization")
         && !EqIgnoreAsciiCase(k, "te")
         && !EqIgnoreAsciiCase(k, "trailer")
         && !EqIgnoreAsciiCase(k, "upgrade")
      {
        var val := ToStr(hs[i].value);
        if val.Some? {
          headers := headers + [(k, val.value)];
        }
      }
      KeptAppend(hs[..i], hs[i]);
      assert hs[..i + 1] == hs[..i] + [hs[i]];
    }
    assert hs[..|hs|] == hs;
  }

  /** A header is kept, name and value as text, iff its name is not dropped and its value converts. */
  lemma {:induction false} KeptMembership(hs: seq<Header>, name: string, value: string)
    ensures (name, value) in KeptHeaders(hs) <==>
              exists k :: 0 <= k < |hs| && hs[k].name == name && !IsDropped(name) && ToStr(hs[k].value) == Some(value)
    decreases |hs|
  {
    if hs != [] {
      KeptMembership(hs[1..], name, value);
      if (name, value) in KeptHeaders(hs[1..]) {
        var k :| 0 <= k < |hs[1..]| && hs[1..][k].name == name && !IsDropped(name) && ToStr(hs[1..][k].value) == Some(value);
        assert hs[k + 1] == hs[1..][k];
      }
      if exists k :: 0 <= k < |hs| && hs[k].name == name && !IsDropped(name) && ToStr(hs[k].value) == Some(value) {
        var k :| 0 <= k < |hs| && hs[k].name == name && !IsDropped(name) && ToStr(hs[k].value) == Some(value);
        if k > 0 {
          assert hs[1..][k - 1] == hs[k];
        }
      }
    }
  }

  /** No dropped name, in any letter case, survives the filter. */
  lemma {:induction false} KeptNoDropped(hs: seq<Header>)
    ensures forall k :: 0 <= k < |KeptHeaders(hs)| ==> !IsDropped(KeptHeaders(hs)[k].0)
    decreases |hs|
  {
    if hs != [] {
      KeptNoDropped(hs[1..]);
    }
  }

  /** `xs` is `ys` with some elements left out, the rest in their order. */
  predicate Subsequence<T(==)>(xs: seq<T>, ys: seq<T>)
    decreases |ys|
  {
    if xs == [] then true
    else if ys == [] then false
    else (xs[0] == ys[0] && Subsequence(xs[1..], ys[1..])) || Subsequence(xs, ys[1..])
  }

  /** Every header with its value read as text, whether or not the value converts. */
  function Pairs(hs: seq<Header>): (ps: seq<(string, string)>)
    ensures |ps| == |hs|
    ensures forall k :: 0 <= k < |hs| ==> ps[k].0 == hs[k].name
    ensures forall k :: 0 <= k < |hs| ==> ps[k].1 == AsText(hs[k].value)
  {
    if hs == [] then [] else [(hs[0].name, AsText(hs[0].value))] + Pairs(hs[1..])
  }

  /** The kept headers are an order-preserving subsequence of the origin's, names and values unchanged. */
  lemma {:induction false} KeptSubsequence(hs: seq<Header>)
    ensures Subsequence(KeptHeaders(hs), Pairs(hs))
    decreases |hs|
  {
    if hs != [] {
      KeptSubsequence(hs[1..]);
      var ps := Pairs(hs);
      assert ps[1..] == Pairs(hs[1..]);
      var kept := KeptHeaders(hs);
      if Keep(hs[0]).Some? {
        assert kept[0] == ps[0] && kept[1..] == KeptHeaders(hs[1..]);
      } else {
        assert kept == KeptHeaders(hs[1..]);
        SubsequenceSkip(kept, ps);
      }
    }
  }

  /** A subsequence of the tail is one of the whole: the dropped-header step of `KeptSubsequence`. */
  lemma SubsequenceSkip<T>(xs: seq<T>, ys: seq<T>)
    requires ys != [] && Subsequence(xs, ys[1..])
    ensures Subsequence(xs, ys)
  {
  }

  /** A kept header turned back into a header: its text's bytes as the value. */
  function Rebuild(kv: (string, string)): Header
  {
    Header(kv.0, seq(|kv.1|, i requires 0 <= i < |kv.1| => if kv.1[i] as int < 256 then kv.1[i] as int else 0))
  }

  /** Headers that carry the given pairs (for `KeptIdempotent`). */
  function Rebuilt(kvs: seq<(string, string)>): (hs: seq<Header>)
    ensures |hs| == |kvs| && forall k :: 0 <= k < |kvs| ==> hs[k] == Rebuild(kvs[k])
  {
    if kvs == [] then [] else [Rebuild(kvs[0])] + Rebuilt(kvs[1..])
  }

  /** Filtering the filtered headers again keeps them all: the filter is idempotent. */
  lemma {:induction false} KeptIdempotent(hs: seq<Header>)
    ensures KeptHeaders(Rebuilt(KeptHeaders(hs))) == KeptHeaders(hs)
    decreases |hs|
  {
    if hs != [] {
      KeptIdempotent(hs[1..]);
      var kept := KeptHeaders(hs);
      var rest := KeptHeaders(hs[1..]);
      match Keep(hs[0])
      case None =>
        assert kept == rest;
      case Some(kv) =>
        assert kept == [kv] + rest;
        var h := Rebuild(kv);
        assert h.value == hs[0].value;
        assert Keep(h) == Some(kv);
        assert Rebuilt(kept)[0] == h && Rebuilt(kept)[1..] == Rebuilt(rest);
    }
  }
}
