/**
 * The Rust exit node's `/proxy` handler (`handle_proxy` in exit_proxy/src/main.rs):
 * unwrap the session key, decrypt and parse the `ProxyRequest`, send it to the
 * origin, shape what comes back into a `ProxyResponse` — the origin's status,
 * filtered headers and body, or a synthetic 502 — and encrypt that under the
 * same session key.
 *
 * Base64, JSON, RSA, AES-GCM and the HTTP client are library code and are given
 * as functions. Every `unwrap`/`expect` that fails on what the entry node sent,
 * and the one on the response encryption, becomes a `Panic` result; building
 * the HTTP client and serializing the `ProxyResponse` are taken never to fail.
 */
module ExitProxy {
  import opened Bytes
  import opened Frame
  import opened Utf8
  import opened ResponseHeaders

  /** `ProxyRequest` of common/src/lib.rs. */
  datatype ProxyRequest = ProxyRequest(targetUrl: string, verb: string, headers: seq<(string, string)>, body: Bytes)

  /** A `u16`. */
  type Status = n: int | 0 <= n < 0x1_0000

  /** `ProxyResponse` of common/src/lib.rs. */
  datatype ProxyResponse = ProxyResponse(status: Status, headers: seq<(string, string)>, body: Bytes)

  /** `EncryptedPayload` of common/src/lib.rs: three base64 fields. */
  datatype EncryptedPayload = EncryptedPayload(encryptedAesKey: string, aesNonce: string, encryptedData: string)

  /** `EncryptedResponse` of common/src/lib.rs. */
  datatype EncryptedResponse = EncryptedResponse(aesNonce: string, encryptedData: string)

  /** The request the `reqwest` builder holds when `send` is called. */
  datatype Outbound = Outbound(verb: string, url: string, headers: seq<(string, string)>, body: Option<Bytes>)

  /** What `send().await` gives: a response — whose body read may fail — or the error. */
  datatype OriginReply =
    | Replied(status: Status, headers: seq<Header>, body: Option<Bytes>)
    | SendFailed(error: string)

  /** The `unwrap`s and `expect`s of the handler that the model lets fail. */
  datatype Panic =
    | BadBase64                      // one of the three `b64.decode(..).unwrap()`
    | RsaDecryptionFailed            // "RSA Decryption failed"
    | KeyLengthMismatch(length: nat) // `copy_from_slice` into `[0u8; 32]`
    | NonceLengthMismatch(length: nat) // `Nonce::from_slice` inside `decrypt_aes`
    | AesDecryptionFailed            // "AES Decryption failed"
    | BadRequestJson                 // `serde_json::from_slice(..).unwrap()`
    | BadMethod                      // `method.parse().unwrap()`
    | AesEncryptionFailed            // `encrypt_aes(..).unwrap()`

  /** The library calls of the handler. */
  datatype Services = Services(
    b64Decode: string -> Option<Bytes>,
    b64Encode: Bytes -> string,
    rsaDecrypt: (string, Bytes) -> Option<Bytes>,
    aesDecrypt: (AesKey, Nonce, Bytes) -> Option<Bytes>,
    aesEncrypt: (AesKey, Nonce, Bytes) -> Option<Bytes>,
    parseRequest: Bytes -> Option<ProxyRequest>,
    serializeResponse: ProxyResponse -> Bytes,
    send: Outbound -> OriginReply)

  /** `let mut aes_key = [0u8; 32]; aes_key.copy_from_slice(&aes_key_vec)`. */
  function CopyKey(v: Bytes): (r: Result<AesKey, Panic>)
    ensures r.Ok? <==> |v| == KeyLength
    ensures r.Ok? ==> r.value == v
    ensures r.Err? ==> r.error == KeyLengthMismatch(|v|)
  {
    if |v| == KeyLength then Ok(v) else Err(KeyLengthMismatch(|v|))
  }

  /** `Nonce::from_slice(nonce)` of `decrypt_aes`: a 96-bit nonce or a panic. */
  function NonceFromSlice(v: Bytes): (r: Result<Nonce, Panic>)
    ensures r.Ok? <==> |v| == NonceLength
    ensures r.Ok? ==> r.value == v
    ensures r.Err? ==> r.error == NonceLengthMismatch(|v|)
  {
    if |v| == NonceLength then Ok(v) else Err(NonceLengthMismatch(|v|))
  }

  /** A `tchar` of section 3.2.6 of RFC 7230, the characters `http::Method` accepts. */
  predicate IsTokenChar(c: char)
  {
    || ('a' <= c <= 'z') || ('A' <= c <= 'Z') || ('0' <= c <= '9')
    || c in "!#$%&'*+-.^_`|~"
  }

  /** `str::parse::<Method>` succeeds: a non-empty token. */
  predicate IsMethod(s: string)
  {
    |s| > 0 && forall i :: 0 <= i < |s| ==> IsTokenChar(s[i])
  }

  /**
   * The outbound request: method and URL as given, the headers forwarded in order,
   * and the body attached only when it is not empty.
   */
  function Outgoing(req: ProxyRequest): (o: Outbound)
    ensures o.verb == req.verb && o.url == req.targetUrl
    ensures o.headers == req.headers
    ensures o.body.Some? <==> req.body != []
    ensures o.body.Some? ==> o.body.value == req.body
  {
    Outbound(req.verb, req.targetUrl, req.headers, if req.body == [] then None else Some(req.body))
  }

  /** Lines 71-83: the builder, one `header` call per request header, then the body if any. */
  method BuildOutbound(req: ProxyRequest) returns (o: Outbound)
    ensures o == Outgoing(req)
  {
    var headers: seq<(string, string)> := [];
    for i := 0 to |req.headers|
      invariant headers == req.headers[..i]
    {
      headers := headers + [req.headers[i]];
    }
    assert req.headers[..|req.headers|] == req.headers;
    var body: Option<Bytes> := None;
    if req.body != [] {
      body := Some(req.body);
    }
    o := Outbound(req.verb, req.targetUrl, headers, body);
  }

  const BadGateway: Status := 502

  const ProxyErrorPrefix: string := "Proxy Error: "

  /** Lines 88-121: the `ProxyResponse` built from what the origin gave. */
  function ShapeResponse(reply: OriginReply): ProxyResponse
  {
    match reply
    case Replied(status, headers, body) =>
      ProxyResponse(status, KeptHeaders(headers), match body case None => [] case Some(b) => b)
    case SendFailed(e) => ProxyResponse(BadGateway, [], Encode(ProxyErrorPrefix + e))
  }

  /** A failed request becomes a 502 with no headers whose body reads "Proxy Error: " and the error. */
  lemma ShapeFailure(e: string)
    ensures var r := ShapeResponse(SendFailed(e));
            && r.status == 502 && r.headers == []
            && Decode(r.body) == Ok(ProxyErrorPrefix + e)
  {
    DecodeIffEncode(Encode(ProxyErrorPrefix + e), ProxyErrorPrefix + e);
  }

  /**
   * A response keeps the origin's status and body — an empty body when reading it
   * failed — and passes on, in order, exactly the origin headers the filter keeps.
   */
  lemma ShapeSuccess(status: Status, headers: seq<Header>, body: Option<Bytes>)
    ensures var r := ShapeResponse(Replied(status, headers, body));
            && r.status == status
            && (body.Some? ==> r.body == body.value)
            && (body.None? ==> r.body == [])
            && Subsequence(r.headers, Pairs(headers))
            && (forall k :: 0 <= k < |r.headers| ==> !IsDropped(r.headers[k].0))
            && (forall n, v :: (n, v) in r.headers <==>
                  exists k :: 0 <= k < |headers| && headers[k].name == n && !IsDropped(n) && ToStr(headers[k].value) == Some(v))
  {
    KeptSubsequence(headers);
    KeptNoDropped(headers);
    forall n, v
      ensures (n, v) in KeptHeaders(headers) <==>
                exists k :: 0 <= k < |headers| && headers[k].name == n && !IsDropped(n) && ToStr(headers[k].value) == Some(v)
    {
      KeptMembership(headers, n, v);
    }
  }

  /** The request the handler sends to the origin, or the panic that comes first. */
  function Decrypted(s: Services, privateKey: string, payload: EncryptedPayload): Result<(AesKey, ProxyRequest), Panic>
  {
    match (s.b64Decode(payload.encryptedAesKey), s.b64Decode(payload.aesNonce), s.b64Decode(payload.encryptedData))
    case (Some(wrapped), Some(nonce), Some(data)) =>
      (match s.rsaDecrypt(privateKey, wrapped)
       case None => Err(RsaDecryptionFailed)
       case Some(keyBytes) =>
         match CopyKey(keyBytes)
         case Err(p) => Err(p)
         case Ok(key) =>
           match NonceFromSlice(nonce)
           case Err(p) => Err(p)
           case Ok(n) =>
             match s.aesDecrypt(key, n, data)
             case None => Err(AesDecryptionFailed)
             case Some(plaintext) =>
               match s.parseRequest(plaintext)
               case None => Err(BadRequestJson)
               case Some(req) => if IsMethod(req.verb) then Ok((key, req)) else Err(BadMethod))
    case _ => Err(BadBase64)
  }

  /** `handle_proxy`, with `responseNonce` the nonce `encrypt_aes` draws for the response. */
  function HandleProxy(s: Services, privateKey: string, payload: EncryptedPayload, responseNonce: Nonce)
    : Result<EncryptedResponse, Panic>
  {
    match Decrypted(s, privateKey, payload)
    case Err(p) => Err(p)
    case Ok((key, req)) =>
      var response := ShapeResponse(s.send(Outgoing(req)));
      match s.aesEncrypt(key, responseNonce, s.serializeResponse(response))
      case None => Err(AesEncryptionFailed)
      case Some(ciphertext) => Ok(EncryptedResponse(s.b64Encode(responseNonce), s.b64Encode(ciphertext)))
  }

  /** AES-256-GCM decrypts what it encrypted. */
  ghost predicate AeadInverts(s: Services)
  {
    forall key: AesKey, nonce: Nonce, plaintext: Bytes ::
      s.aesEncrypt(key, nonce, plaintext).Some? ==>
        s.aesDecrypt(key, nonce, s.aesEncrypt(key, nonce, plaintext).value) == Some(plaintext)
  }

  /** Base64 decodes what it encoded. */
  ghost predicate Base64Inverts(s: Services)
  {
    forall b :: s.b64Decode(s.b64Encode(b)) == Some(b)
  }

  /** A recovered key of any length other than 32 bytes panics before anything is decrypted. */
  lemma KeyLengthPanics(s: Services, privateKey: string, payload: EncryptedPayload, responseNonce: Nonce)
    requires s.b64Decode(payload.encryptedAesKey).Some? && s.b64Decode(payload.aesNonce).Some?
    requires s.b64Decode(payload.encryptedData).Some?
    requires s.rsaDecrypt(privateKey, s.b64Decode(payload.encryptedAesKey).value).Some?
    requires |s.rsaDecrypt(privateKey, s.b64Decode(payload.encryptedAesKey).value).value| != KeyLength
    ensures HandleProxy(s, privateKey, payload, responseNonce)
            == Err(KeyLengthMismatch(|s.rsaDecrypt(privateKey, s.b64Decode(payload.encryptedAesKey).value).value|))
  {
  }

  /** A nonce of any length other than 12 bytes panics when the request is decrypted. */
  lemma NonceLengthPanics(s: Services, privateKey: string, payload: EncryptedPayload, responseNonce: Nonce)
    requires s.b64Decode(payload.encryptedAesKey).Some? && s.b64Decode(payload.aesNonce).Some?
    requires s.b64Decode(payload.encryptedData).Some?
    requires s.rsaDecrypt(privateKey, s.b64Decode(payload.encryptedAesKey).value).Some?
    requires |s.rsaDecrypt(privateKey, s.b64Decode(payload.encryptedAesKey).value).value| == KeyLength
    requires |s.b64Decode(payload.aesNonce).value| != NonceLength
    ensures HandleProxy(s, privateKey, payload, responseNonce) == Err(NonceLengthMismatch(|s.b64Decode(payload.aesNonce).value|))
  {
  }

  /**
   * Every answer is sealed under the session key of its request: whoever holds that
   * key opens the answer, under the nonce it carries, to the serialized response
   * built from the origin's reply to the decrypted request.
   */
  lemma AnswerUsesRequestKey(s: Services, privateKey: string, payload: EncryptedPayload, responseNonce: Nonce)
    requires AeadInverts(s) && Base64Inverts(s)
    requires HandleProxy(s, privateKey, payload, responseNonce).Ok?
    ensures Decrypted(s, privateKey, payload).Ok?
    ensures var (key, req) := Decrypted(s, privateKey, payload).value;
            var answer := HandleProxy(s, privateKey, payload, responseNonce).value;
            && s.b64Decode(answer.aesNonce) == Some(responseNonce)
            && s.b64Decode(answer.encryptedData).Some?
            && s.aesDecrypt(key, responseNonce, s.b64Decode(answer.encryptedData).value)
               == Some(s.serializeResponse(ShapeResponse(s.send(Outgoing(req)))))
  {
    var (key, req) := Decrypted(s, privateKey, payload).value;
    var plaintext := s.serializeResponse(ShapeResponse(s.send(Outgoing(req))));
    var ciphertext := s.aesEncrypt(key, responseNonce, plaintext).value;
    assert s.b64Decode(s.b64Encode(ciphertext)) == Some(ciphertext);
    assert s.b64Decode(s.b64Encode(responseNonce)) == Some(responseNonce);
  }

  /** AES-256-GCM encryption under a 32-byte key does not fail: `encrypt_aes(..).unwrap()` never panics. */
  ghost predicate AeadAccepts(s: Services)
  {
    forall key: AesKey, nonce: Nonce, plaintext: Bytes :: s.aesEncrypt(key, nonce, plaintext).Some?
  }

  /**
   * Once the request has decrypted and parsed, the handler always answers, whatever
   * the origin did; it panics exactly when decrypting the request panicked, and with
   * that panic.
   */
  lemma DecryptedRequestAnswered(s: Services, privateKey: string, payload: EncryptedPayload, responseNonce: Nonce)
    requires AeadAccepts(s)
    ensures HandleProxy(s, privateKey, payload, responseNonce).Ok? <==> Decrypted(s, privateKey, payload).Ok?
    ensures Decrypted(s, privateKey, payload).Err? ==>
              HandleProxy(s, privateKey, payload, responseNonce) == Err(Decrypted(s, privateKey, payload).error)
    ensures HandleProxy(s, privateKey, payload, responseNonce).Ok? ==>
              HandleProxy(s, privateKey, payload, responseNonce).value.aesNonce == s.b64Encode(responseNonce)
  {
    if Decrypted(s, privateKey, payload).Ok? {
      var (key, req) := Decrypted(s, privateKey, payload).value;
      assert s.aesEncrypt(key, responseNonce, s.serializeResponse(ShapeResponse(s.send(Outgoing(req))))).Some?;
    }
  }

  /**
   * An origin failure is still answered whenever the request decrypted: with the 502
   * response, no headers and the body "Proxy Error: " followed by the error.
   */
  lemma OriginFailureAnswered(s: Services, privateKey: string, payload: EncryptedPayload, responseNonce: Nonce)
    requires AeadAccepts(s)
    requires Decrypted(s, privateKey, payload).Ok?
    requires s.send(Outgoing(Decrypted(s, privateKey, payload).value.1)).SendFailed?
    ensures HandleProxy(s, privateKey, payload, responseNonce).Ok?
    ensures var reply := s.send(Outgoing(Decrypted(s, privateKey, payload).value.1));
            var r := ShapeResponse(reply);
            && r.status == 502 && r.headers == []
            && Decode(r.body) == Ok(ProxyErrorPrefix + reply.error)
  {
    DecryptedRequestAnswered(s, privateKey, payload, responseNonce);
    ShapeFailure(s.send(Outgoing(Decrypted(s, privateKey, payload).value.1)).error);
  }
}
