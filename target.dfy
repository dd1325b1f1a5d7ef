/**
 * What the exit node of the Python relays does with one decrypted request
 * (the inner `try` of `handle_proxy_entree` in proxy_sortie.py): decode it as
 * UTF-8, take the first CRLF-delimited line, split it on whitespace, take the
 * second word as the target, put a test origin in front of a bare path, fetch
 * it, and answer with the content — or, when any of that raises, with an error
 * text. The fetch itself is a parameter.
 */
module RequestTarget {
  import opened Bytes
  import opened Utf8

  /** `str.isspace()` of one character, as `str.split()` with no argument uses it. */
  predicate IsSpace(c: char)
  {
    || ('\U{9}' <= c <= '\U{D}') || ('\U{1C}' <= c <= '\U{20}')
    || c == '\U{85}' || c == '\U{A0}' || c == '\U{1680}' || ('\U{2000}' <= c <= '\U{200A}')
    || c == '\U{2028}' || c == '\U{2029}' || c == '\U{202F}' || c == '\U{205F}' || c == '\U{3000}'
  }

  /** `s` holds no whitespace. */
  predicate NoSpace(s: string)
  {
    forall k :: 0 <= k < |s| ==> !IsSpace(s[k])
  }

  /** `s` has a CR LF pair starting at position `k`. */
  predicate CrlfAt(s: string, k: int)
  {
    0 <= k && k + 1 < |s| && s[k] == '\r' && s[k + 1] == '\n'
  }

  /**
   * `s.split("\r\n")[0]`: the longest prefix of `s` holding no CR LF, which is
   * either all of `s` or ends where the first CR LF starts.
   */
  function FirstLine(s: string): (line: string)
    ensures line <= s
    ensures forall k :: !CrlfAt(line, k)
    ensures line == s || CrlfAt(s, |line|)
  {
    if |s| < 2 then s
    else if s[0] == '\r' && s[1] == '\n' then []
    else
      var tail := FirstLine(s[1..]);
      assert forall k :: CrlfAt([s[0]] + tail, k) && k > 0 ==> CrlfAt(tail, k - 1);
      [s[0]] + tail
  }

  /** The length of the run of non-space characters at the front of `s`. */
  function WordLength(s: string): (n: nat)
    ensures n <= |s| && NoSpace(s[..n])
    ensures n < |s| ==> IsSpace(s[n])
  {
    if s == [] || IsSpace(s[0]) then 0
    else
      var n := 1 + WordLength(s[1..]);
      assert s[..n] == [s[0]] + s[1..][..n - 1];
      n
  }

  /** `s.split()`: the maximal runs of non-space characters, in order. */
  function Words(s: string): (ws: seq<string>)
    ensures forall k :: 0 <= k < |ws| ==> ws[k] != [] && NoSpace(ws[k])
    decreases |s|
  {
    if s == [] then []
    else if IsSpace(s[0]) then Words(s[1..])
    else
      var n := WordLength(s);
      [s[..n]] + Words(s[n..])
  }

  /** The words joined back without separators (for `WordsKeepText`). */
  function Concat(ws: seq<string>): string
  {
    if ws == [] then [] else ws[0] + Concat(ws[1..])
  }

  /** `s` with every space character taken out. */
  function Squeeze(s: string): string
  {
    if s == [] then [] else (if IsSpace(s[0]) then [] else [s[0]]) + Squeeze(s[1..])
  }

  /** Dropping whitespace distributes over concatenation (for `WordsKeepText`). */
  lemma {:induction false} SqueezeAppend(a: string, b: string)
    ensures Squeeze(a + b) == Squeeze(a) + Squeeze(b)
    decreases |a|
  {
    if a == [] {
      assert a + b == b;
    } else {
      assert (a + b)[0] == a[0] && (a + b)[1..] == a[1..] + b;
      SqueezeAppend(a[1..], b);
    }
  }

  /** A whitespace-free run loses nothing (for `WordsKeepText`). */
  lemma {:induction false} SqueezeWord(w: string)
    requires NoSpace(w)
    ensures Squeeze(w) == w
    decreases |w|
  {
    if w != [] {
      SqueezeWord(w[1..]);
    }
  }

  /** Splitting drops the whitespace and nothing else: the words are the non-space text, in order. */
  lemma {:induction false} WordsKeepText(s: string)
    ensures Concat(Words(s)) == Squeeze(s)
    decreases |s|
  {
    if s != [] {
      if IsSpace(s[0]) {
        WordsKeepText(s[1..]);
      } else {
        var n := WordLength(s);
        var ws := Words(s);
        assert ws[0] == s[..n] && ws[1..] == Words(s[n..]);
        WordsKeepText(s[n..]);
        assert s == s[..n] + s[n..];
        SqueezeAppend(s[..n], s[n..]);
        SqueezeWord(s[..n]);
      }
    }
  }

  /** Words joined by single spaces. */
  function Unwords(ws: seq<string>): string
  {
    if ws == [] then [] else if |ws| == 1 then ws[0] else ws[0] + " " + Unwords(ws[1..])
  }

  /** A word stops at the first whitespace (for `WordsUnwords` and `WordsSeparated`). */
  lemma {:induction false} WordLengthOf(w: string, rest: string)
    requires NoSpace(w) && (rest == [] || IsSpace(rest[0]))
    ensures WordLength(w + rest) == |w|
    decreases |w|
  {
    if w == [] {
      assert w + rest == rest;
    } else {
      assert (w + rest)[0] == w[0] && (w + rest)[1..] == w[1..] + rest;
      WordLengthOf(w[1..], rest);
    }
  }

  /** Splitting single-space-joined words gives the words back. */
  lemma {:induction false} WordsUnwords(ws: seq<string>)
    requires forall k :: 0 <= k < |ws| ==> ws[k] != [] && NoSpace(ws[k])
    ensures Words(Unwords(ws)) == ws
    decreases |ws|
  {
    if |ws| == 1 {
      WordLengthOf(ws[0], []);
      assert ws[0] + [] == ws[0];
      assert ws[0][|ws[0]|..] == [];
    } else if |ws| > 1 {
      var s := Unwords(ws);
      var tail := Unwords(ws[1..]);
      assert s == ws[0] + (" " + tail);
      WordLengthOf(ws[0], " " + tail);
      assert s[..|ws[0]|] == ws[0];
      assert s[|ws[0]|..] == " " + tail;
      assert (" " + tail)[1..] == tail;
      WordsUnwords(ws[1..]);
    }
  }

  /** `s` holds only whitespace. */
  predicate AllSpace(s: string)
  {
    forall k :: 0 <= k < |s| ==> IsSpace(s[k])
  }

  /** Leading whitespace yields no word. */
  lemma {:induction false} WordsSkipSpace(sp: string, b: string)
    requires AllSpace(sp)
    ensures Words(sp + b) == Words(b)
    decreases |sp|
  {
    if sp == [] {
      assert sp + b == b;
    } else {
      assert (sp + b)[0] == sp[0] && (sp + b)[1..] == sp[1..] + b;
      WordsSkipSpace(sp[1..], b);
    }
  }

  /** A run of non-space characters is one word. */
  lemma WordsOfWord(w: string)
    requires w != [] && NoSpace(w)
    ensures Words(w) == [w]
  {
    WordLengthOf(w, []);
    assert w + [] == w;
    assert w[|w|..] == [];
  }

  /**
   * Any run of whitespace separates words, and only whitespace does: what lies on
   * either side of it is split on its own, and no word spans it.
   */
  lemma {:induction false} WordsSeparated(a: string, sp: string, b: string)
    requires sp != [] && AllSpace(sp)
    ensures Words(a + sp + b) == Words(a) + Words(b)
    decreases |a|
  {
    var s := a + sp + b;
    if a == [] {
      assert s == sp + b;
      WordsSkipSpace(sp, b);
    } else if IsSpace(a[0]) {
      assert s[0] == a[0] && s[1..] == a[1..] + sp + b;
      WordsSeparated(a[1..], sp, b);
    } else {
      var n := WordLength(a);
      var rest := a[n..] + sp + b;
      assert a == a[..n] + a[n..];
      assert s == a[..n] + rest;
      assert n < |a| ==> rest[0] == a[n];
      assert n == |a| ==> rest[0] == sp[0];
      WordLengthOf(a[..n], rest);
      assert s[..n] == a[..n] && s[n..] == rest;
      WordsSeparated(a[n..], sp, b);
      AppendAssoc([a[..n]], Words(a[n..]), Words(b));
    }
  }

  /** Two words with any whitespace between them split into exactly those two words. */
  lemma TwoWords(u: string, sp: string, v: string)
    requires u != [] && NoSpace(u) && v != [] && NoSpace(v)
    requires sp != [] && AllSpace(sp)
    ensures Words(u + sp + v) == [u, v]
  {
    WordsSeparated(u, sp, v);
    WordsOfWord(u);
    WordsOfWord(v);
  }

  /** `request_lines[0].split()[1]`, or nothing when the line has fewer than two words. */
  function Target(text: string): (t: Option<string>)
    ensures t.Some? ==> t.value != [] && NoSpace(t.value)
  {
    var ws := Words(FirstLine(text));
    if |ws| >= 2 then Some(ws[1]) else None
  }

  /** A line without CRLF is the first line of itself plus CRLF and anything (for `RequestLineTarget`). */
  lemma {:induction false} FirstLineOf(line: string, rest: string)
    requires forall k :: !CrlfAt(line, k)
    ensures FirstLine(line + "\r\n" + rest) == line
    decreases |line|
  {
    var s := line + "\r\n" + rest;
    if line == [] {
      assert s == "\r\n" + rest;
    } else {
      assert s[1..] == line[1..] + "\r\n" + rest;
      assert forall k :: CrlfAt(line[1..], k) ==> CrlfAt(line, k + 1);
      FirstLineOf(line[1..], rest);
      if |line| == 1 {
        assert s[1] == '\r';
      } else {
        assert !CrlfAt(line, 0);
      }
    }
  }

  /** A request line `METHOD TARGET VERSION` followed by CR LF yields TARGET. */
  lemma RequestLineTarget(verb: string, target: string, version: string, rest: string)
    requires verb != [] && NoSpace(verb)
    requires target != [] && NoSpace(target)
    requires version != [] && NoSpace(version)
    ensures Target(verb + " " + target + " " + version + "\r\n" + rest) == Some(target)
  {
    var ws := [verb, target, version];
    var line := Unwords(ws);
    assert ws[1..] == [target, version] && ws[1..][1..] == [version];
    assert Unwords(ws[1..]) == target + " " + version;
    assert line == verb + " " + target + " " + version;
    assert forall k :: !CrlfAt(line, k) by {
      forall k | CrlfAt(line, k)
        ensures false
      {
        assert IsSpace(line[k]);
      }
    }
    FirstLineOf(line, rest);
    WordsUnwords(ws);
  }

  const Origin: string := "http://example.com"

  /** The URL fetched for a target: itself if it starts with "http", else the test origin followed by it. */
  function Resolve(t: string): (url: string)
    ensures "http" <= url
    ensures "http" <= t ==> url == t
    ensures !("http" <= t) ==> url == Origin + t
  {
    if "http" <= t then t else Origin + t
  }

  /** Resolving a resolved URL changes nothing: the fallback is applied at most once. */
  lemma ResolveIdempotent(t: string)
    ensures Resolve(Resolve(t)) == Resolve(t)
  {
    if !("http" <= t) {
      assert (Origin + t)[..4] == "http";
    }
  }

  /** What the fetch of the URL gives: the response content or the text of the exception. */
  datatype Fetch = Fetched(content: Bytes) | FetchFailed(message: string)

  /** Why no content came back. */
  datatype Failure =
    | Undecodable(error: DecodeError)   // `decode()` raised
    | NoTarget                          // `[1]` raised: fewer than two words
    | OriginFailed(message: string)     // `requests.get` or `.content` raised

  /** `str(e)` of the exception for each failure. */
  function Message(request: Bytes, f: Failure): string
  {
    match f
    case Undecodable(e) => ErrorText(request, e)
    case NoTarget => "list index out of range"
    case OriginFailed(m) => m
  }

  const ErrorPrefix: string := "Erreur lors de la requ\U{EA}te HTTP: "

  /** `f"Erreur lors de la requ\U{EA}te HTTP: {e}".encode()`. */
  function ErrorPayload(message: string): Bytes
  {
    Encode(ErrorPrefix + message)
  }

  /** The error payload decodes to its text: the entry node's client receives the message intact. */
  lemma ErrorPayloadText(message: string)
    ensures Decode(ErrorPayload(message)) == Ok(ErrorPrefix + message)
  {
    DecodeIffEncode(ErrorPayload(message), ErrorPrefix + message);
  }

  /** The inner `try`: the content fetched for the request, or why there is none. */
  function Outcome(request: Bytes, fetch: string -> Fetch): Result<Bytes, Failure>
  {
    match Decode(request)
    case Err(e) => Err(Undecodable(e))
    case Ok(text) =>
      match Target(text)
      case None => Err(NoTarget)
      case Some(t) =>
        match fetch(Resolve(t))
        case Fetched(content) => Ok(content)
        case FetchFailed(m) => Err(OriginFailed(m))
  }

  /** `response_data`: the content, or the error payload in its place. */
  function Respond(request: Bytes, fetch: string -> Fetch): Bytes
  {
    match Outcome(request, fetch)
    case Ok(content) => content
    case Err(f) => ErrorPayload(Message(request, f))
  }

  /**
   * A well-formed request line is answered with what the origin gives for its
   * target, resolved; a failing fetch still yields an answer, the error payload.
   */
  lemma RespondToRequestLine(verb: string, target: string, version: string, rest: string,
                             fetch: string -> Fetch)
    requires verb != [] && NoSpace(verb)
    requires target != [] && NoSpace(target)
    requires version != [] && NoSpace(version)
    ensures var request := Encode(verb + " " + target + " " + version + "\r\n" + rest);
            && (fetch(Resolve(target)).Fetched? ==> Respond(request, fetch) == fetch(Resolve(target)).content)
            && (fetch(Resolve(target)).FetchFailed? ==>
                  Decode(Respond(request, fetch)) == Ok(ErrorPrefix + fetch(Resolve(target)).message))
  {
    var text := verb + " " + target + " " + version + "\r\n" + rest;
    DecodeIffEncode(Encode(text), text);
    RequestLineTarget(verb, target, version, rest);
    if fetch(Resolve(target)).FetchFailed? {
      ErrorPayloadText(fetch(Resolve(target)).message);
    }
  }

  /** A request line with fewer than two words is answered with the `IndexError` text. */
  lemma RespondWithoutTarget(text: string, fetch: string -> Fetch)
    requires |Words(FirstLine(text))| < 2
    ensures Decode(Respond(Encode(text), fetch)) == Ok(ErrorPrefix + "list index out of range")
  {
    DecodeIffEncode(Encode(text), text);
    ErrorPayloadText("list index out of range");
  }

  /** Bytes that are not UTF-8 are answered with the codec's error text; the origin is not asked. */
  lemma RespondToUndecodable(request: Bytes, fetch: string -> Fetch)
    requires Decode(request).Err?
    ensures Decode(Respond(request, fetch)) == Ok(ErrorPrefix + ErrorText(request, Decode(request).error))
  {
    ErrorPayloadText(ErrorText(request, Decode(request).error));
  }
}
