/**
 * The tunnel frame of the two Python relays: `nonce(12) ‖ tag(16) ‖ ciphertext`,
 * written by one concatenation and read back by slicing at offsets 12 and 28.
 * There is no length prefix: one `recv` is taken to be one frame.
 */
module Frame {
  import opened Bytes

  const NonceLength: nat := 12
  const TagLength: nat := 16
  /** Offset of the ciphertext: everything before it is nonce and tag. */
  const HeaderLength: nat := NonceLength + TagLength
  /** `generate_aes_key()` draws 32 bytes (AES-256). */
  const KeyLength: nat := 32

  type Nonce = s: Bytes | |s| == NonceLength witness seq(12, _ => 0)
  type Tag = s: Bytes | |s| == TagLength witness seq(16, _ => 0)
  type AesKey = s: Bytes | |s| == KeyLength witness seq(32, _ => 0)

  /** The three slices a receiver cuts out of a frame. */
  datatype Parts = Parts(nonce: Bytes, tag: Bytes, ciphertext: Bytes)

  /** Frame construction: `nonce + tag + ciphertext`. */
  function Join(nonce: Nonce, tag: Tag, ciphertext: Bytes): (frame: Bytes)
    ensures |frame| == HeaderLength + |ciphertext|
    ensures frame[..NonceLength] == nonce
    ensures frame[NonceLength..HeaderLength] == tag
    ensures frame[HeaderLength..] == ciphertext
  {
    nonce + tag + ciphertext
  }

  /**
   * Frame parsing: `data[:12]`, `data[12:28]`, `data[28:]`. Total: a short input
   * yields a truncated nonce and tag and an empty ciphertext, and it is the
   * decryption that then fails, not the split.
   */
  function Split(data: Bytes): (p: Parts)
    ensures p.nonce + p.tag + p.ciphertext == data
    ensures |p.nonce| == Min(|data|, NonceLength)
    ensures |p.tag| == Min(|data|, HeaderLength) - Min(|data|, NonceLength)
    ensures |data| >= HeaderLength ==>
              p.nonce == data[..NonceLength] && p.tag == data[NonceLength..HeaderLength]
              && p.ciphertext == data[HeaderLength..]
    ensures |data| < HeaderLength ==> p.ciphertext == []
  {
    Parts(Slice(data, 0, NonceLength), Slice(data, NonceLength, HeaderLength), Slice(data, HeaderLength, |data|))
  }

  /** The reader's offsets agree with the writer's layout: splitting a joined frame recovers its parts. */
  lemma SplitJoin(nonce: Nonce, tag: Tag, ciphertext: Bytes)
    ensures Split(Join(nonce, tag, ciphertext)) == Parts(nonce, tag, ciphertext)
  {
    var f := Join(nonce, tag, ciphertext);
    assert f[..NonceLength] == nonce;
  }

  /** Conversely, every input of at least 28 bytes is the join of its own parts. */
  lemma JoinSplit(data: Bytes)
    requires |data| >= HeaderLength
    ensures |Split(data).nonce| == NonceLength && |Split(data).tag| == TagLength
    ensures Join(Split(data).nonce, Split(data).tag, Split(data).ciphertext) == data
  {
  }
}
