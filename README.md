# Secure web proxy relays — a Dafny model

The repository is a two-hop web proxy. A browser talks to an **entry node**. The entry node encrypts each chunk of
browser traffic with an AES-256-GCM session key and sends it to an **exit node**. The exit node decrypts the chunk,
fetches the resource from the origin, and sends back the encrypted answer. The session key travels RSA-wrapped at
the start of each connection. There are two generations of the design:

- The Python relays. `handle_client` in `proxy_entree.py` is the entry node's per-connection handler.
  `handle_proxy_entree` in `proxy_sortie.py` is the exit node's. They speak over a raw TCP tunnel in frames laid out
  as `nonce(12) ‖ tag(16) ‖ ciphertext`.
- The Rust exit node's `/proxy` handler, `handle_proxy` in `exit_proxy/src/main.rs`. It receives an RSA-wrapped
  key and an AES-encrypted `ProxyRequest`, both base64-encoded. It replays the request against the origin and
  returns an encrypted `ProxyResponse`: the origin's status, its filtered headers and its body, or a synthetic 502.

The model has these modules:

- **Bytes**: bytes, `Option`/`Result` and Python's clipped slice.
- **Utf8**: Python's strict UTF-8 codec and the text of its `UnicodeDecodeError`.
- **Frame**: frame layout and the 12/28 split.
- **Crypto**: RSA and AES-GCM as function-typed parameters, with the properties assumed of them stated as
  predicates.
- **Transport**: a `Socket` class whose `recv`, `sendall` and `close` append to a shared `Journal` of events.
- **Trace**: runs of events and the bytes read from one side.
- **EntryRelay**: `handle_client` as an imperative method over two sockets. It is proved against the functions
  `Relay`/`Forward`/`Session`, which give the whole journal of a connection.
- **ExitRelay**: `handle_proxy_entree`, proved against `Serve`/`Connection`.
- **RequestTarget**: what the exit node does with one decrypted request.
- **Tunnel**: the two relays' passes composed.
- **ResponseHeaders**: the Rust header filter, a method with a loop, proved against `KeptHeaders`.
- **ExitProxy**: the rest of `handle_proxy`. Each `unwrap`/`expect` that fails on what the entry node sent, and the
  one on the response encryption, is a `Panic` on its error path. The two that cannot fail on input are left out (see
  below).

The entry node wraps the session key with its own public key (`proxy_entree.py:18,31`). The exit node unwraps with
its own private key. The model therefore takes the wrapping key as a parameter. `ExitRelay.ConnectionUnwrapsKey`
covers a key wrapped under the exit node's public key. `ExitRelay.ConnectionRejectsForeignKey` covers a key wrapped
under any other key, where the exit node reads the key, closes, and serves nothing.

## Model

| member | source | states |
|---|---|---|
| Bytes.Slice | proxy_sortie.py:35-37 | Python's slice `s[lo:hi]`: both bounds clipped to the length, empty when they cross, otherwise exactly the elements between them (the same slices are at proxy_entree.py lines 50-52) |
| Frame.Join | proxy_entree.py:41-43 | a frame is the 12-byte nonce, then the 16-byte tag, then the ciphertext, each at its offset |
| Frame.Split | proxy_sortie.py:35-37 | the three slices concatenate back to the data; on short input they are clipped, with no ciphertext; from 28 bytes on they sit at offsets 0, 12 and 28 |
| Frame.SplitJoin | proxy_sortie.py:35-37 | the reader's offsets recover exactly the nonce, tag and ciphertext the writer joined |
| Frame.JoinSplit | proxy_entree.py:50-52 | every input of at least 28 bytes is the join of its own three parts |
| Crypto.SealFrame | crypto_utils.py:53-63 | a frame comes out exactly when AES-GCM encryption does not raise |
| Crypto.OpenFrame | proxy_entree.py:50-53 | definition: the frame cut at offsets 12 and 28, then AES-GCM decryption, on both nodes (also proxy_sortie.py lines 35-40) |
| Crypto.OpenSealedFrame | crypto_utils.py:65-71 | if AES-GCM decrypts what it encrypted, a sealed frame opens to its plaintext and carries its nonce at the front |
| Transport.Take | proxy_entree.py:36 | `recv(n)` returns at most `n` bytes; it returns nothing exactly when the peer has nothing left; the bytes returned plus what remains are the peer's stream; the volume left shrinks by what was read |
| Transport.Socket.constructor | proxy_entree.py:26 | a new socket is open, on its link and journal, with the peer's pending data |
| Transport.Socket.Recv | proxy_entree.py:36 | the read consumes the pending data as `Take` does and journals one receive |
| Transport.Socket.SendAll | proxy_entree.py:32 | the journal gains exactly one send of all the data |
| Transport.Socket.Close | proxy_entree.py:61 | the socket is closed, its pending data unchanged, and the journal gains one close |
| Utf8.EncodeChar | proxy_sortie.py:56 | a character encodes to 1-4 bytes, one byte exactly for ASCII, otherwise a lead byte in C2..F4 followed by continuation bytes |
| Utf8.Encode | proxy_sortie.py:56 | an encoding is never shorter than its text |
| Utf8.DecodeStep | proxy_sortie.py:45 | each step of the decoder consumes or blames between 1 and 4 bytes, never more than it has |
| Utf8.DecodeFrom | proxy_sortie.py:45 | a decode error blames a non-empty range of positions that lies inside the input |
| Utf8.Decode | proxy_sortie.py:45 | definition: `bytes.decode()`, strict UTF-8 from position 0; `DecodeIffEncode` states what it accepts and returns |
| Utf8.ErrorText | proxy_sortie.py:56 | definition: `str(e)` of the `UnicodeDecodeError`, one blamed byte in hexadecimal with its position, several as a position range, then the reason; `DecodeErrorTextStart` and `DecodeErrorTextRange` pin it on two inputs |
| Utf8.DecodeErrorTextStart | proxy_sortie.py:45-56 | the lone byte FF is rejected as an invalid start byte at position 0, and its text is "'utf-8' codec can't decode byte 0xff in position 0: invalid start byte" |
| Utf8.DecodeErrorTextRange | proxy_sortie.py:45-56 | the truncated sequence E2 82 is blamed as the range 0-1, and its text is "'utf-8' codec can't decode bytes in position 0-1: unexpected end of data" |
| Utf8.DecodeStepEncodeChar | proxy_sortie.py:45 | the decoder reads back a character's encoding as that character, consuming exactly its bytes |
| Utf8.DecodeStepCanonical | proxy_sortie.py:45 | the decoder accepts a character only from its canonical encoding (no overlong forms, no surrogates) |
| Utf8.DecodeEncode | proxy_sortie.py:45 | decoding the encoding of any string gives the string back |
| Utf8.EncodeDecode | proxy_sortie.py:45 | every successful decode re-encodes to exactly the input bytes |
| Utf8.DecodeIffEncode | proxy_sortie.py:45 | `b` decodes to `s` if and only if `s` encodes to `b` |
| RequestTarget.FirstLine | proxy_sortie.py:45 | `split("\r\n")[0]` is a prefix holding no CR LF; it is either the whole text or ends where the first CR LF starts |
| RequestTarget.Words | proxy_sortie.py:46 | `split()` yields non-empty words containing no whitespace; that they are the maximal runs is `WordsSeparated` and `WordsOfWord` |
| RequestTarget.WordsKeepText | proxy_sortie.py:46 | the words, concatenated, are the text with its whitespace taken out |
| RequestTarget.IsSpace | proxy_sortie.py:46 | definition: the characters `str.isspace()` accepts, which `split()` with no argument splits on |
| RequestTarget.WordsUnwords | proxy_sortie.py:46 | splitting words that were joined by single spaces gives the words back |
| RequestTarget.WordsSkipSpace | proxy_sortie.py:46 | leading whitespace yields no word |
| RequestTarget.WordsOfWord | proxy_sortie.py:46 | a non-empty run without whitespace is exactly one word |
| RequestTarget.WordsSeparated | proxy_sortie.py:46 | any non-empty run of whitespace separates words: the text on either side of it is split on its own, and no word spans it |
| RequestTarget.TwoWords | proxy_sortie.py:46 | two words with any whitespace between them split into exactly those two words |
| RequestTarget.Target | proxy_sortie.py:46 | the target, when there is one, is a non-empty word without whitespace |
| RequestTarget.FirstLineOf | proxy_sortie.py:45 | a line free of CR LF, followed by CR LF and anything else, is the first line |
| RequestTarget.RequestLineTarget | proxy_sortie.py:45-46 | the request line `METHOD TARGET VERSION` CR LF yields TARGET |
| RequestTarget.Resolve | proxy_sortie.py:49-51 | the URL fetched always starts with "http"; it is the target itself when the target does, otherwise `http://example.com` followed by the target |
| RequestTarget.ResolveIdempotent | proxy_sortie.py:49-51 | the test origin is put in front at most once |
| RequestTarget.ErrorPayload | proxy_sortie.py:56 | definition: the UTF-8 bytes of the error prefix followed by the exception text; `ErrorPayloadText` states what it decodes to |
| RequestTarget.Outcome | proxy_sortie.py:44-54 | definition: the inner `try` as a result, failing with the codec error, the `IndexError` or the fetch's error, in that order; the properties are in the `Respond...` rows |
| RequestTarget.Message | proxy_sortie.py:55-56 | definition: `str(e)` for each failure: the codec's text, `list index out of range` for the missing target, or the fetch's own message |
| RequestTarget.Respond | proxy_sortie.py:44-56 | definition: `response_data`, the content on success and the error payload for the failure otherwise; the properties are in the `Respond...` rows |
| RequestTarget.ErrorPayloadText | proxy_sortie.py:55-56 | the error payload decodes to the prefix followed by the exception text |
| RequestTarget.RespondToRequestLine | proxy_sortie.py:44-56 | a UTF-8 request line is answered with the origin's content for its resolved target; a failing fetch is answered with the error payload carrying the fetch's message |
| RequestTarget.RespondWithoutTarget | proxy_sortie.py:44-56 | a first line with fewer than two words is answered with the `IndexError` text `list index out of range` |
| RequestTarget.RespondToUndecodable | proxy_sortie.py:44-56 | bytes that are not UTF-8 are answered with the codec's error text |
| EntryRelay.Relay | proxy_entree.py:35-56 | definition: the events and ending of the loop from its `i`-th pass on, for what the client and the exit node still have to deliver; `RelayAlternates` and the rows after it state its properties |
| EntryRelay.Forward | proxy_entree.py:41-56 | definition: the rest of a pass after a non-empty client chunk; mutually recursive with `Relay` |
| EntryRelay.Session | proxy_entree.py:23-62 | definition: the whole journal and ending of a connection, for each way the exit socket's creation and connection go; `SessionShape` states its properties |
| EntryRelay.RelayOnce | proxy_entree.py:36-56 | one loop pass appends its events to the journal; it either ends the loop as `Relay` says, or consumes client data and leaves the rest of `Relay` still to do |
| EntryRelay.ForwardOnce | proxy_entree.py:41-56 | after a client chunk: seal, send, read one frame, open it, write it to the client, or stop with the ending `Forward` gives |
| EntryRelay.RelayLoop | proxy_entree.py:35-56 | the loop journals exactly the events of `Relay` from pass 0 and ends as `Relay` ends, without closing anything |
| EntryRelay.HandleClient | proxy_entree.py:23-62 | the whole handler journals exactly the events of `Session`, ends as it ends, and always leaves the client socket closed |
| EntryRelay.RelayAlternates | proxy_entree.py:35-56 | the loop's events are full passes, each a client chunk, its frame under `draw(i)`, one frame back and its plaintext to the client, followed by one final pass that fits its ending |
| EntryRelay.AlternatesNoClose | proxy_entree.py:35-56 | the loop never closes a socket and ends neither in a connect failure nor an unbound socket |
| EntryRelay.RelayNeverEncryptFails | proxy_entree.py:35-56 | when AES-GCM accepts every 32-byte key, the loop never stops on a failed encryption |
| EntryRelay.ForwardNeverEncryptFails | proxy_entree.py:41-56 | the same for the rest of a pass |
| EntryRelay.EveryChunkForwarded | proxy_entree.py:35-43 | unless the loop stopped on a failed encryption, every non-empty chunk read from the client opens a pass and is followed at once by its frame under that pass's nonce |
| EntryRelay.RelayForwardsEveryChunk | proxy_entree.py:35-43 | with a 32-byte key the loop never stops on a failed encryption, and every non-empty client chunk goes out as its own frame |
| EntryRelay.RelayReadsClient | proxy_entree.py:36-38 | what the loop reads from the client is a prefix of the client's stream, and all of it when the loop ends on the client's hang-up |
| EntryRelay.ForwardReadsClient | proxy_entree.py:41-56 | the rest of a pass reads from the client only through the passes after it |
| EntryRelay.RelayReadsTunnel | proxy_entree.py:46-48 | what the loop reads from the exit node is a prefix of its stream, and all of it when the loop ends on the exit node's hang-up |
| EntryRelay.ForwardReadsTunnel | proxy_entree.py:43-56 | the rest of a pass reads the exit node's next frame, then what the passes after it read |
| EntryRelay.SessionShape | proxy_entree.py:23-62 | the client socket is always closed and the exit socket is closed whenever it was created; nothing is closed before that; the unbound-socket ending happens exactly when socket creation fails; on a connection, the wrapped key is sent first and the relaying in between alternates |
| EntryRelay.SessionForwardsEveryChunk | proxy_entree.py:23-62 | once connected, a session never aborts on an encryption, and every non-empty client chunk between the wrapped key and the closes goes out as its own frame |
| EntryRelay.ExchangeFrameOpens | proxy_entree.py:41-43 | every frame of a full pass opens, under the session key, to the client's chunk, with the pass's nonce at its front |
| ExitRelay.Serve | proxy_sortie.py:28-60 | definition: the events and ending of the loop from its `i`-th pass on, for what the entry node still has to deliver; `ServeAnswers` and the rows after it state its properties |
| ExitRelay.Connection | proxy_sortie.py:21-65 | definition: the key read, the unwrapping, the loop and the close; `ConnectionShape` states its properties |
| ExitRelay.ServeOnce | proxy_sortie.py:30-60 | one pass appends its events to the journal; it either ends the loop as `Serve` says, or consumes data and leaves the rest of `Serve` still to do |
| ExitRelay.ServeLoop | proxy_sortie.py:28-60 | the loop journals exactly the events of `Serve` from pass 0 and ends as `Serve` ends, without closing |
| ExitRelay.HandleProxyEntree | proxy_sortie.py:21-65 | the handler journals exactly the events of `Connection`, ends as it ends, and always leaves the socket closed |
| ExitRelay.ServeAnswers | proxy_sortie.py:28-60 | every frame that opens is answered by exactly one frame sealing `Respond` of its request, whatever the origin does, except that the last pass may stop on a failed encryption; the last pass fits the ending |
| ExitRelay.AnswersNoClose | proxy_sortie.py:28-60 | serving never closes the socket and never ends with a key failure |
| ExitRelay.ServeNeverEncryptFails | proxy_sortie.py:40-60 | with a 32-byte session key and AES-GCM accepting such keys, the loop never stops on a failed encryption |
| ExitRelay.OpenedFrameAnswered | proxy_sortie.py:28-60 | unless the loop stopped on a failed encryption, a non-empty frame that opens starts a pass, and the next event is its answer sealed under that pass's nonce |
| ExitRelay.EveryOpenedFrameAnswered | proxy_sortie.py:28-60 | the same for every such frame at once |
| ExitRelay.ServeAnswersEveryFrame | proxy_sortie.py:28-60 | with a 32-byte key the loop never stops on a failed encryption, and every frame it reads that opens gets exactly one answer frame |
| ExitRelay.ServeReads | proxy_sortie.py:30-32 | what the loop reads is a prefix of the entry node's stream, and all of it when the loop ends on the entry node's hang-up |
| ExitRelay.ConnectionShape | proxy_sortie.py:21-65 | the key read comes first and the close last, with nothing closed in between; the connection aborts on the key exactly when RSA unwrapping fails; otherwise it answers frame by frame under the unwrapped key |
| ExitRelay.ConnectionUnwrapsKey | proxy_sortie.py:24-25 | a key wrapped under the matching public key is unwrapped and served under |
| ExitRelay.ConnectionRejectsForeignKey | proxy_sortie.py:24-25 | a key wrapped under another pair's public key leads to the key read, the close and nothing else |
| ExitRelay.ConnectionAnswersEveryFrame | proxy_sortie.py:21-65 | a key wrapped under the matching public key is served in full: no abort on the key or on an encryption, and every frame between the key read and the close that opens under the key is answered |
| ExitRelay.ConnectionRejectsShortKey | proxy_sortie.py:24-25 | when OAEP needs a full 256-byte block, a first read of any other size, a hang-up included, gives the key read, the close and the key failure |
| ExitRelay.AnswerFrameOpens | proxy_sortie.py:59-60 | the answer frame opens, under the session key, to the answer for the request it followed |
| Tunnel.PassesCompose | proxy_entree.py:41-56 | when each node reads the frame the other wrote, the exit node serves the client's own chunk, and the client receives exactly the exit node's answer to it |
| ResponseHeaders.EqIgnoreAsciiCase | exit_proxy/src/main.rs:95-103 | definition: `eq_ignore_ascii_case`, equal length and equal characters after ASCII lower-casing; `EqIgnoreAsciiCaseLower` states it |
| ResponseHeaders.IsDropped | exit_proxy/src/main.rs:95-103 | definition: the nine comparisons of the filter; the `Dropped...` rows state its properties |
| ResponseHeaders.Keep | exit_proxy/src/main.rs:95-107 | definition: the pair kept for one header, or none |
| ResponseHeaders.KeptHeaders | exit_proxy/src/main.rs:92-108 | definition: the kept pairs of a header sequence, in its order; the `Kept...` rows state its properties |
| ResponseHeaders.ToStr | exit_proxy/src/main.rs:104 | a value converts exactly when every byte is a tab or visible ASCII, and then to the same characters |
| ResponseHeaders.EqIgnoreAsciiCaseLower | exit_proxy/src/main.rs:95-103 | two names are equal ignoring ASCII case if and only if their ASCII lower-case forms are equal |
| ResponseHeaders.DroppedLowerCase | exit_proxy/src/main.rs:95-103 | the nine names the filter tests are written in lower case |
| ResponseHeaders.DroppedByLowerName | exit_proxy/src/main.rs:95-103 | a name is dropped if and only if its lower-case form is one of the nine |
| ResponseHeaders.DroppedInAnyCase | exit_proxy/src/main.rs:95-103 | whether a name is dropped does not depend on its letter case |
| ResponseHeaders.DroppedByNineTests | exit_proxy/src/main.rs:95-103 | the nine comparisons, in source order, decide dropping |
| ResponseHeaders.KeptAppend | exit_proxy/src/main.rs:92-108 | filtering one more header appends at most that header's pair |
| ResponseHeaders.FilterResponseHeaders | exit_proxy/src/main.rs:91-108 | the loop pushes exactly the pairs `KeptHeaders` gives, in order |
| ResponseHeaders.KeptMembership | exit_proxy/src/main.rs:92-108 | a pair is kept if and only if some origin header has that name, is not dropped, and has that value as text |
| ResponseHeaders.KeptNoDropped | exit_proxy/src/main.rs:95-103 | no dropped name, in any case, survives the filter |
| ResponseHeaders.KeptSubsequence | exit_proxy/src/main.rs:92-108 | the kept pairs are an order-preserving subsequence of the origin's headers, unchanged, in the order the `HeaderMap` iterates them (a repeated name's values follow its first occurrence) |
| ResponseHeaders.KeptIdempotent | exit_proxy/src/main.rs:92-108 | filtering the kept headers again keeps all of them |
| ExitProxy.CopyKey | exit_proxy/src/main.rs:58-59 | the key is copied if and only if it has 32 bytes; otherwise the handler panics with that length |
| ExitProxy.NonceFromSlice | common/src/lib.rs:68 | the nonce is accepted if and only if it has 12 bytes; otherwise the handler panics with that length |
| ExitProxy.IsMethod | exit_proxy/src/main.rs:71-72 | definition: `parse::<Method>()` succeeds on a non-empty string of token characters; `Decrypted` panics with `BadMethod` otherwise |
| ExitProxy.Outgoing | exit_proxy/src/main.rs:71-83 | the outbound request keeps the method, URL and headers, and has a body exactly when the request body is non-empty |
| ExitProxy.BuildOutbound | exit_proxy/src/main.rs:76-83 | the builder loop forwards every header in order, then attaches the body as `Outgoing` does |
| ExitProxy.ShapeResponse | exit_proxy/src/main.rs:88-121 | definition: the `ProxyResponse` built from the origin's reply; `ShapeFailure` and `ShapeSuccess` state its properties |
| ExitProxy.ShapeFailure | exit_proxy/src/main.rs:113-120 | a failed send becomes status 502, no headers, and a body that decodes to "Proxy Error: " followed by the error |
| ExitProxy.ShapeSuccess | exit_proxy/src/main.rs:89-112 | a reply keeps the origin's status and body, which is empty when reading it failed; its headers are exactly the kept ones, in the `HeaderMap`'s iteration order, with no dropped name |
| ExitProxy.Decrypted | exit_proxy/src/main.rs:49-72 | definition: the session key and the parsed request, or the first panic on the way to them, in the handler's order |
| ExitProxy.HandleProxy | exit_proxy/src/main.rs:44-133 | definition: the whole handler, the encrypted response or a panic; the rows after it state its properties |
| ExitProxy.KeyLengthPanics | exit_proxy/src/main.rs:54-59 | a recovered key that is not 32 bytes long panics before anything is decrypted |
| ExitProxy.NonceLengthPanics | exit_proxy/src/main.rs:62-63 | a request nonce that is not 12 bytes long panics at decryption |
| ExitProxy.AnswerUsesRequestKey | exit_proxy/src/main.rs:123-132 | a successful answer carries the response nonce, and it decrypts under the request's session key to the serialized response to the decrypted request |
| ExitProxy.DecryptedRequestAnswered | exit_proxy/src/main.rs:85-132 | when AES-256-GCM accepts every 32-byte key, the handler answers if and only if the request decrypted and parsed, whatever the origin did; otherwise it fails with the request's own panic; the answer carries the response nonce |
| ExitProxy.OriginFailureAnswered | exit_proxy/src/main.rs:85-125 | when AES-256-GCM accepts every 32-byte key and the origin cannot be reached, a request that decrypted is still answered, with status 502, no headers and a body reading "Proxy Error: " and the error |

## Left out

- The cryptography is not modelled. RSA-OAEP, RSA-PKCS#1 v1.5, AES-GCM and key generation are function-typed
  parameters. `None` stands for the library raising. The properties used are assumptions, each a named predicate:
  AES-GCM decrypts what it encrypted (`AeadInverts`), AES-GCM encryption under a 32-byte key does not raise
  (`Crypto.AeadAcceptsAes256`, `ExitProxy.AeadAccepts`), RSA does or does not match (`RsaMatches`, `RsaRejects`), and
  OAEP decryption raises on anything but a full 256-byte block (`RsaNeedsFullBlock`). Without that last one, the
  abstract RSA decryption may accept an empty or short key read; only `ExitRelay.ConnectionRejectsShortKey` assumes it.
- Base64, the JSON serialisation of `ProxyRequest`/`ProxyResponse` and `reqwest` are functions given to
  `ExitProxy.HandleProxy`. Errors from `reqwest`'s header and URL parsing are folded into the result of `send`.
- The randomness (`os.urandom`, `generate_aes_key`, `OsRng`) is a parameter: the nonces are `draw(0)`, `draw(1)`, ...
  and the session key is given.
- Socket creation's address arguments, `bind`, `listen`, `accept`, the thread per connection, the axum/tokio
  servers and the `/public-key` route are out: they are I/O set-up around the handlers.
- `sendall` never fails in the model. A `recv` returns the next pending segment, clipped to the buffer size, and the
  remainder stays pending. The model does not try to capture how TCP splits or merges data.
- `recv` never raises in the model. A connection reset would reach the `except`/`finally` of either relay
  (`proxy_entree.py:58-62`, `proxy_sortie.py:62-65`). The endings the model has cover only an empty read, a failed
  socket creation or connection, and a failed encryption, decryption or key unwrapping.
- The origin is a deterministic function of the URL (`fetch`). The header map the Python exit node passes is empty,
  and the GET it sends is not modelled further.
- `print` calls and log lines are out. A Rust panic is modelled as an `Err(Panic)` result, which drops the request.
- `serde_json::to_vec(&proxy_resp).unwrap()` (`exit_proxy/src/main.rs:124`) is `serializeResponse`, which never
  fails. `reqwest::Client::new()` (`exit_proxy/src/main.rs:70`), which panics when the TLS backend cannot start, is
  not modelled either.
- The entry proxy Rust handler (`entry_proxy/src/main.rs`) and `benchmark.py` are not part of this model.
- The exit node's header names reach the filter as text. The `http` crate gives them already in lower case, which
  the model does not assume: the filter is proved for names in any case.
