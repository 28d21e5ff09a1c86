/** How a cluster is stored: raw, or in a frame around its encrypted form.

    The authenticated cipher and the checksum are parameters. A frame is recognised
    on reading by its first four bytes only, so a raw cluster that happens to begin
    with them does not survive: `RawRoundTrip` says exactly when it does. */
module VimgCodec {
  import opened Common

  const MAGIC: nat := 0x474D4956
  const VERSION: Byte := 1
  const FLAG_ENCRYPTED: Byte := 2
  const HEADER: nat := 24
  const NONCE: nat := 12
  const TAG: nat := 16
  const U32: nat := 0x1_0000_0000

  type Bytes = seq<Byte>

  /** Sealing and opening under the image's key, with the cluster index as
      associated data. */
  datatype Cipher = Cipher(seal: (nat, Bytes, Bytes) -> Bytes, open: (nat, Bytes, Bytes) -> Option<Bytes>)

  ghost predicate CipherOk(c: Cipher) {
    forall i: nat, nonce: Bytes, plain: Bytes :: |nonce| == NONCE ==>
      && |c.seal(i, nonce, plain)| == |plain| + TAG
      && c.open(i, nonce, c.seal(i, nonce, plain)) == Some(plain)
  }

  datatype Codec = Codec(encrypted: bool, cipher: Cipher, crc: Bytes -> nat)

  function Checksum(k: Codec, payload: Bytes): nat {
    k.crc(payload) % U32
  }

  function FrameHeader(k: Codec, plainLen: nat, payload: Bytes): (h: Bytes)
    ensures |h| == HEADER
  {
    Put(MAGIC, 4) + [VERSION, FLAG_ENCRYPTED, 0, 0] + Put(plainLen, 4)
      + Put(Checksum(k, payload), 4) + (Put(NONCE, 2) + [0, 0]) + Put(|payload|, 4)
  }

  /** The stored form of cluster `i`; `nonce` is what the random source gave. */
  function Encode(k: Codec, i: nat, data: Bytes, nonce: Bytes): Bytes {
    if !k.encrypted then data
    else
      var payload := k.cipher.seal(i, nonce, data);
      FrameHeader(k, |data|, payload) + nonce + payload
  }

  predicate Framed(stored: Bytes) {
    |stored| >= HEADER && Le(stored[0..4]) == MAGIC
  }

  function Decode(k: Codec, i: nat, stored: Bytes): Option<Bytes> {
    if !Framed(stored) then Some(stored)
    else if stored[4] != VERSION then None
    else
      var flags := stored[5];
      var rawSize, crc := Le(stored[8..12]), Le(stored[12..16]);
      var nonceLen, payloadLen := Le(stored[16..18]), Le(stored[20..24]);
      if |stored| != HEADER + nonceLen + payloadLen then None
      else
        var nonce, payload := stored[HEADER..HEADER + nonceLen], stored[HEADER + nonceLen..];
        if Checksum(k, payload) != crc then None
        else
          var plain := if flags / 2 % 2 == 0 then Some(payload)
                       else if !k.encrypted || |nonce| != NONCE then None
                       else k.cipher.open(i, nonce, payload);
          if plain.None? || flags % 2 == 1 || |plain.value| != rawSize then None else plain
  }

  // ------------------------------------------------------------- round trips

  lemma Groups(a: Bytes, b: Bytes, c: Bytes, d: Bytes, e: Bytes, f: Bytes)
    requires |a| == |b| == |c| == |d| == |e| == |f| == 4
    ensures var h := a + b + c + d + e + f;
      h[0..4] == a && h[4..8] == b && h[8..12] == c && h[12..16] == d && h[16..20] == e && h[20..24] == f
  {
  }

  lemma {:induction false} FrameFields(k: Codec, n: nat, payload: Bytes)
    ensures var h := FrameHeader(k, n, payload);
      && h[0..4] == Put(MAGIC, 4) && h[4] == VERSION && h[5] == FLAG_ENCRYPTED
      && h[4..8] == [VERSION, FLAG_ENCRYPTED, 0, 0] && h[18..20] == [0, 0]
      && h[8..12] == Put(n, 4) && h[12..16] == Put(Checksum(k, payload), 4)
      && h[16..18] == Put(NONCE, 2) && h[20..24] == Put(|payload|, 4)
  {
    var h, nonceLen := FrameHeader(k, n, payload), Put(NONCE, 2) + [0, 0];
    Groups(Put(MAGIC, 4), [VERSION, FLAG_ENCRYPTED, 0, 0], Put(n, 4), Put(Checksum(k, payload), 4), nonceLen,
           Put(|payload|, 4));
    assert h[4] == h[4..8][0] && h[5] == h[4..8][1];
    assert h[16..18] == h[16..20][0..2] && nonceLen[0..2] == Put(NONCE, 2);
    assert h[18..20] == h[16..20][2..4] && nonceLen[2..4] == [0, 0];
  }

  /** A frame shows its header's fields, its nonce and its payload. */
  lemma FrameParts(h: Bytes, nonce: Bytes, payload: Bytes)
    requires |h| == HEADER && |nonce| == NONCE
    ensures var s := h + nonce + payload;
      && |s| == HEADER + NONCE + |payload| && s[..HEADER] == h
      && s[HEADER..HEADER + NONCE] == nonce && s[HEADER + NONCE..] == payload
      && forall i, j :: 0 <= i <= j <= HEADER ==> s[i..j] == h[i..j]
  {
  }

  lemma {:induction false} HeaderLayout(k: Codec, n: nat, payload: Bytes)
    requires n < U32 && |payload| < U32
    ensures var h := FrameHeader(k, n, payload);
      && h[0..4] == [0x56, 0x49, 0x4D, 0x47] && h[4..8] == [1, 2, 0, 0] && h[18..20] == [0, 0]
      && Le(h[8..12]) == n && Le(h[12..16]) == k.crc(payload) % 0x1_0000_0000
      && Le(h[16..18]) == 12 && Le(h[20..24]) == |payload|
  {
    FrameFields(k, n, payload);
    Pow256Values();
    LePut(n, 4);
    LePut(Checksum(k, payload), 4);
    LePut(NONCE, 2);
    LePut(|payload|, 4);
    MagicBytes(Put(MAGIC, 4));
    LePut(MAGIC, 4);
  }

  /** A frame byte by byte: the magic "VIMG", version 1, the flag of an encrypted cluster,
      the sizes and the checksum, the nonce and the sealed cluster. */
  lemma {:induction false} FrameLayout(k: Codec, i: nat, data: Bytes, nonce: Bytes)
    requires k.encrypted && CipherOk(k.cipher) && |nonce| == NONCE && |data| + TAG < U32
    ensures var s, payload := Encode(k, i, data, nonce), k.cipher.seal(i, nonce, data);
      && |s| == 52 + |data| && s[0..4] == [0x56, 0x49, 0x4D, 0x47]
      && s[4..8] == [1, 2, 0, 0] && s[18..20] == [0, 0]
      && Le(s[8..12]) == |data| && Le(s[12..16]) == k.crc(payload) % 0x1_0000_0000
      && Le(s[16..18]) == 12 && Le(s[20..24]) == |data| + 16 && s[24..36] == nonce && s[36..] == payload
  {
    var payload := k.cipher.seal(i, nonce, data);
    HeaderLayout(k, |data|, payload);
    FrameParts(FrameHeader(k, |data|, payload), nonce, payload);
  }

  /** What may be read back: bytes without the magic as they are, and of the rest exactly
      the frames of version 1, uncompressed, whose sizes and checksum are right. */
  lemma {:induction false} DecodeExact(k: Codec, i: nat, s: Bytes, plain: Bytes)
    ensures !(|s| >= 24 && s[0..4] == [0x56, 0x49, 0x4D, 0x47]) ==> Decode(k, i, s) == Some(s)
    ensures |s| >= 24 && s[0..4] == [0x56, 0x49, 0x4D, 0x47] ==>
      var at := 24 + Le(s[16..18]);
      (Decode(k, i, s) == Some(plain) <==>
        && s[4] == 1 && s[5] % 2 == 0 && |s| == at + Le(s[20..24]) && |plain| == Le(s[8..12])
        && k.crc(s[at..]) % 0x1_0000_0000 == Le(s[12..16])
        && if s[5] / 2 % 2 == 0 then plain == s[at..]
           else k.encrypted && at == 36 && k.cipher.open(i, s[24..36], s[36..]) == Some(plain))
  {
    if |s| >= 24 { MagicBytes(s[0..4]); }
  }

  lemma MagicBytes(b: Bytes)
    requires |b| == 4
    ensures Le(b) == MAGIC <==> b == [0x56, 0x49, 0x4D, 0x47]
  {
    PutLe(b);
    assert Le([0x56, 0x49, 0x4D, 0x47]) == MAGIC;
  }

  /** Every encrypted cluster is read back as it was written. */
  lemma {:induction false} EncryptedRoundTrip(k: Codec, i: nat, data: Bytes, nonce: Bytes)
    requires k.encrypted && CipherOk(k.cipher) && |nonce| == NONCE && |data| + TAG < U32
    ensures Decode(k, i, Encode(k, i, data, nonce)) == Some(data)
  {
    var payload := k.cipher.seal(i, nonce, data);
    assert |payload| == |data| + TAG;
    FrameFields(k, |data|, payload);
    FrameParts(FrameHeader(k, |data|, payload), nonce, payload);
    Pow256Values();
    LePut(MAGIC, 4);
    LePut(|data|, 4);
    LePut(Checksum(k, payload), 4);
    LePut(NONCE, 2);
    LePut(|payload|, 4);
  }

  /** A raw cluster is read back as it was written exactly when it does not look like
      a frame; one that does is never read back as it was. */
  lemma {:induction false} RawRoundTrip(k: Codec, i: nat, data: Bytes, nonce: Bytes)
    requires !k.encrypted
    ensures Decode(k, i, Encode(k, i, data, nonce)) == Some(data) <==> !Framed(data)
  {
  }

  /** The clusters a codec keeps: those `RawRoundTrip` and `EncryptedRoundTrip` name. */
  predicate Keeps(k: Codec, data: Bytes) {
    k.encrypted || !Framed(data)
  }

  /** What reading a cluster back yields does not depend on the nonce. */
  lemma {:induction false} ReadBack(k: Codec, i: nat, data: Bytes, nonce: Bytes)
    requires CipherOk(k.cipher) && |nonce| == NONCE && |data| + TAG < U32
    ensures Decode(k, i, Encode(k, i, data, nonce)) == if k.encrypted then Some(data) else Decode(k, i, data)
    ensures Decode(k, i, Encode(k, i, data, nonce)) == Some(data) <==> Keeps(k, data)
  {
    if k.encrypted {
      EncryptedRoundTrip(k, i, data, nonce);
    } else {
      RawRoundTrip(k, i, data, nonce);
    }
  }
}
