/** Sealed records: a 24-byte header, authenticated as associated data, and one
    encrypted KTP frame. ChaCha20-Poly1305 (section 2.8 of RFC 8439) enters only
    through the laws in `Lawful`; every statement holds for every such cipher. */
module KtpCrypto {
  import opened Bytes
  import opened Ktp

  const KTP_CRYPTO_MAGIC: seq<Byte> := [0x4B, 0x54, 0x45, 0x31]
  const KTP_CRYPTO_VERSION: Byte := 1
  const KTP_CRYPTO_HEADER_LEN: nat := 24
  const TAG_LEN: nat := 16

  datatype Direction = ClientToRelay | RelayToClient
  {
    function Id(): Byte {
      if ClientToRelay? then 1 else 2
    }
  }

  datatype CryptoError =
    | AuthFailed
    | MalformedRecord(message: string)
    | CryptoBufferLimit(attempted: nat, limit: nat)
    | KtpFailure(error: KtpError)
    | SequenceExhausted
    | SequenceMismatch(expected: U64, actual: U64)

  /** A cipher under a fixed key: both operations take a nonce, the associated
      data and a text. */
  datatype Cipher = Cipher(
    seal: (seq<Byte>, seq<Byte>, seq<Byte>) -> seq<Byte>,
    open: (seq<Byte>, seq<Byte>, seq<Byte>) -> Option<seq<Byte>>)

  /** Sealing adds a tag; opening accepts exactly what sealing produces. */
  ghost predicate Lawful(c: Cipher) {
    && (forall n, a, p :: |c.seal(n, a, p)| == |p| + TAG_LEN)
    && (forall n, a, p :: c.open(n, a, c.seal(n, a, p)) == Some(p))
    && (forall n, a, t :: c.open(n, a, t).Some? ==> c.seal(n, a, c.open(n, a, t).value) == t)
  }

  const ZERO_TAG: seq<Byte> := ToBe(0, TAG_LEN)

  /** The laws are satisfiable: a cipher that only appends a tag obeys them. */
  lemma LawfulCipherExists() returns (c: Cipher)
    ensures Lawful(c)
  {
    c := Cipher(
      (n: seq<Byte>, a: seq<Byte>, p: seq<Byte>) => p + ZERO_TAG,
      (n: seq<Byte>, a: seq<Byte>, t: seq<Byte>) =>
        if |t| >= TAG_LEN && t[|t| - TAG_LEN..] == ZERO_TAG then Some(t[..|t| - TAG_LEN]) else None);
    forall n, a, p
      ensures c.open(n, a, c.seal(n, a, p)) == Some(p)
    {
      var t := c.seal(n, a, p);
      assert t[|t| - TAG_LEN..] == ZERO_TAG && t[..|t| - TAG_LEN] == p;
    }
  }

  // ---- Nonces ----

  function NonceBytes(direction: Direction, sequence: U64): (n: seq<Byte>)
    ensures |n| == 12
  {
    [direction.Id(), 0, 0, 0] + ToBe(sequence, 8)
  }

  /** Different (direction, sequence) pairs have different nonces. */
  lemma NonceInjective(d1: Direction, s1: U64, d2: Direction, s2: U64)
    requires NonceBytes(d1, s1) == NonceBytes(d2, s2)
    ensures d1 == d2 && s1 == s2
  {
    var n1, n2 := NonceBytes(d1, s1), NonceBytes(d2, s2);
    assert n1[0] == d1.Id() && n2[0] == d2.Id();
    assert n1[4..] == ToBe(s1, 8) && n2[4..] == ToBe(s2, 8);
    PowersOf256();
    FromBeToBe(s1, 8);
    FromBeToBe(s2, 8);
  }

  // ---- Record headers ----

  datatype CryptoHeader = CryptoHeader(sequence: U64, ciphertextLen: nat)

  function RecordHeader(direction: Direction, sequence: U64, ciphertextLen: nat): (h: seq<Byte>)
    ensures |h| == KTP_CRYPTO_HEADER_LEN
  {
    KTP_CRYPTO_MAGIC + [KTP_CRYPTO_VERSION, direction.Id()]
    + ToBe(sequence, 8) + ToBe(ciphertextLen, 4) + [0, 0, 0, 0, 0, 0]
  }

  function ParseCryptoHeader(record: seq<Byte>, direction: Direction): Result<CryptoHeader, CryptoError>
  {
    if |record| < KTP_CRYPTO_HEADER_LEN then Err(MalformedRecord("truncated crypto header"))
    else if record[0..4] != KTP_CRYPTO_MAGIC then Err(MalformedRecord("wrong crypto magic"))
    else if record[4] != KTP_CRYPTO_VERSION then Err(MalformedRecord("unsupported crypto version"))
    else if record[5] != direction.Id() then Err(MalformedRecord("wrong crypto direction"))
    else if exists i | 18 <= i < 24 :: record[i] != 0 then Err(MalformedRecord("non-zero crypto reserved bytes"))
    else Ok(CryptoHeader(ReadU64(record[6..14]), FromBe(record[14..18])))
  }

  lemma RecordHeaderFields(direction: Direction, sequence: U64, ciphertextLen: nat, rest: seq<Byte>)
    ensures var b := RecordHeader(direction, sequence, ciphertextLen) + rest;
            && b[0..4] == KTP_CRYPTO_MAGIC && b[4] == KTP_CRYPTO_VERSION && b[5] == direction.Id()
            && b[6..14] == ToBe(sequence, 8) && b[14..18] == ToBe(ciphertextLen, 4)
            && b[18] == b[19] == b[20] == b[21] == b[22] == b[23] == 0
  {
  }

  lemma RecordHeaderFromFields(b: seq<Byte>, direction: Direction, sequence: U64, ciphertextLen: nat)
    requires |b| >= KTP_CRYPTO_HEADER_LEN
    requires b[0..4] == KTP_CRYPTO_MAGIC && b[4] == KTP_CRYPTO_VERSION && b[5] == direction.Id()
    requires b[6..14] == ToBe(sequence, 8) && b[14..18] == ToBe(ciphertextLen, 4)
    requires b[18] == b[19] == b[20] == b[21] == b[22] == b[23] == 0
    ensures b[..24] == RecordHeader(direction, sequence, ciphertextLen)
  {
  }

  /** A header parses to the fields it was built from and to nothing else. */
  lemma CryptoHeaderIff(record: seq<Byte>, direction: Direction, h: CryptoHeader)
    ensures ParseCryptoHeader(record, direction) == Ok(h)
       <==> h.ciphertextLen < 0x1_0000_0000 && RecordHeader(direction, h.sequence, h.ciphertextLen) <= record
  {
    PowersOf256();
    if ParseCryptoHeader(record, direction) == Ok(h) {
      ToBeFromBe(record[6..14]);
      ToBeFromBe(record[14..18]);
      RecordHeaderFromFields(record, direction, h.sequence, h.ciphertextLen);
    }
    if h.ciphertextLen < 0x1_0000_0000 && RecordHeader(direction, h.sequence, h.ciphertextLen) <= record {
      assert record == RecordHeader(direction, h.sequence, h.ciphertextLen) + record[24..];
      RecordHeaderFields(direction, h.sequence, h.ciphertextLen, record[24..]);
      FromBeToBe(h.sequence, 8);
      FromBeToBe(h.ciphertextLen, 4);
    }
  }

  // ---- Sealing ----

  function SealedRecord(c: Cipher, direction: Direction, sequence: U64, plaintext: seq<Byte>): seq<Byte> {
    var header := RecordHeader(direction, sequence, |plaintext| + TAG_LEN);
    header + c.seal(NonceBytes(direction, sequence), header, plaintext)
  }

  /** The record of one frame. */
  function FrameRecord(c: Cipher, direction: Direction, sequence: U64, frame: KtpFrame): seq<Byte> {
    SealedRecord(c, direction, sequence, FrameBytes(frame))
  }

  function RecordLen(frame: KtpFrame): nat {
    KTP_CRYPTO_HEADER_LEN + |FrameBytes(frame)| + TAG_LEN
  }

  /** The records of a list of frames, one after another. */
  function SealAll(c: Cipher, direction: Direction, sequence: U64, frames: seq<KtpFrame>): seq<Byte>
    requires sequence + |frames| <= U64_MAX
    decreases |frames|
  {
    if frames == [] then []
    else FrameRecord(c, direction, sequence, frames[0]) + SealAll(c, direction, sequence + 1, frames[1..])
  }

  /** What stands where the header will be. */
  function Placeholder(): (p: seq<Byte>)
    ensures |p| == KTP_CRYPTO_HEADER_LEN && forall i | 0 <= i < |p| :: p[i] == 0
  {
    seq(KTP_CRYPTO_HEADER_LEN, _ => 0)
  }

  /** Writes the header over the placeholder, encrypts what follows it in place
      and appends the tag. */
  method EncryptInPlace(cipher: Cipher, nonce: seq<Byte>, header: seq<Byte>, record: ByteVec, recordStart: nat,
                        ghost before: seq<Byte>, ghost plaintext: seq<Byte>)
    requires Lawful(cipher) && |header| == KTP_CRYPTO_HEADER_LEN
    requires recordStart == |before|
    requires record.data == (before + Placeholder()) + plaintext
    modifies record
    ensures record.data == before + (header + cipher.seal(nonce, header, plaintext))
  {
    var payloadStart := recordStart + KTP_CRYPTO_HEADER_LEN;
    record.data := record.data[..recordStart] + header + record.data[payloadStart..];
    var text := record.data[payloadStart..];
    assert text == plaintext;
    var sealed := cipher.seal(nonce, header, text);
    record.data := record.data[..payloadStart] + sealed[..|text|];
    record.data := record.data + sealed[|text|..];
    SealedInPlace(before, Placeholder(), plaintext, header, sealed);
  }

  /** Why a sender refuses to seal a frame, if it does. */
  function SealRefusal(sequence: U64, frame: KtpFrame): (error: Option<CryptoError>)
    ensures error == None <==> sequence < U64_MAX && Encodable(frame)
  {
    if sequence == U64_MAX then Some(SequenceExhausted)
    else if Refusal(frame).Some? then Some(KtpFailure(Refusal(frame).value))
    else None
  }

  class KtpCryptoSeal {
    const cipher: Cipher
    const direction: Direction
    var sequence: U64

    /** The nonces used so far, in order of use. */
    ghost var nonces: seq<seq<Byte>>

    ghost predicate Valid()
      reads this
    {
      && Lawful(cipher)
      && |nonces| == sequence
      && NonceLog(nonces, direction)
    }

    constructor (cipher: Cipher, direction: Direction)
      requires Lawful(cipher)
      ensures Valid() && sequence == 0 && this.cipher == cipher && this.direction == direction
    {
      this.cipher := cipher;
      this.direction := direction;
      sequence := 0;
      nonces := [];
    }

    /** A refused frame leaves the sequence alone, but its 24 placeholder bytes
        stay in the output. The nonce used is new. */
    method AppendSealedFrame(frame: KtpFrame, record: ByteVec) returns (error: Option<CryptoError>)
      requires Valid()
      modifies this, record
      ensures Valid()
      ensures error == SealRefusal(old(sequence), frame)
      ensures error == None ==> && sequence == old(sequence) + 1
                                && record.data == old(record.data) + FrameRecord(cipher, direction, old(sequence), frame)
                                && NonceBytes(direction, old(sequence)) !in old(nonces)
      ensures error != None ==> sequence == old(sequence) && nonces == old(nonces)
      ensures error == Some(SequenceExhausted) ==> record.data == old(record.data)
      ensures error.Some? && error.value.KtpFailure? ==> record.data == old(record.data) + Placeholder()
    {
      hide FrameBytes, Encodable, Refusal, NonceBytes, NonceLog, Lawful, Placeholder;
      var seqNo := sequence;
      if seqNo == U64_MAX {
        return Some(SequenceExhausted);
      }
      ghost var before := record.data;
      var recordStart := |record.data|;
      var payloadStart := recordStart + KTP_CRYPTO_HEADER_LEN;
      record.data := record.data + Placeholder();
      var refused := AppendFrameBytes(frame, record);
      if refused.Some? {
        return Some(KtpFailure(refused.value));
      }
      var ciphertextLen := |record.data| - payloadStart + TAG_LEN;
      var header := RecordHeader(direction, seqNo, ciphertextLen);
      var nonce := NonceBytes(direction, seqNo);
      EncryptInPlace(cipher, nonce, header, record, recordStart, before, FrameBytes(frame));
      NonceLogExtends(nonces, direction);
      nonces := nonces + [nonce];
      sequence := sequence + 1;
      return None;
    }

    method SealFrame(frame: KtpFrame) returns (r: Result<seq<Byte>, CryptoError>)
      requires Valid()
      modifies this
      ensures Valid()
      ensures r.Ok? ==> r.value == FrameRecord(cipher, direction, old(sequence), frame) && sequence == old(sequence) + 1
      ensures r.Err? ==> sequence == old(sequence)
      ensures SealRefusal(old(sequence), frame) == if r.Ok? then None else Some(r.error)
    {
      var record := new ByteVec();
      var error := AppendSealedFrame(frame, record);
      if error.Some? {
        return Err(error.value);
      }
      assert [] + FrameRecord(cipher, direction, old(sequence), frame) == FrameRecord(cipher, direction, old(sequence), frame);
      return Ok(record.data);
    }
  }

  /** Writing the header over the placeholder and the ciphertext over the
      plaintext, then appending the tag, appends the record. */
  lemma SealedInPlace(before: seq<Byte>, placeholder: seq<Byte>, plaintext: seq<Byte>, header: seq<Byte>, sealed: seq<Byte>)
    requires |placeholder| == |header| && |plaintext| <= |sealed|
    ensures var start, payload := |before|, |before| + |header|;
            var d0 := (before + placeholder) + plaintext;
            var d1 := d0[..start] + header + d0[payload..];
            var d2 := d1[..payload] + sealed[..|plaintext|];
            d2 + sealed[|plaintext|..] == before + (header + sealed)
  {
  }

  /** The nonces of a sender: the i-th one carries sequence number i. */
  ghost predicate NonceLog(nonces: seq<seq<Byte>>, direction: Direction) {
    && |nonces| <= U64_MAX
    && forall i | 0 <= i < |nonces| :: nonces[i] == NonceBytes(direction, i)
  }

  lemma NonceLogExtends(nonces: seq<seq<Byte>>, direction: Direction)
    requires NonceLog(nonces, direction) && |nonces| < U64_MAX
    ensures NonceLog(nonces + [NonceBytes(direction, |nonces|)], direction)
    ensures NonceBytes(direction, |nonces|) !in nonces
  {
    var next := NonceBytes(direction, |nonces|);
    if next in nonces {
      var i :| 0 <= i < |nonces| && nonces[i] == next;
      NonceInjective(direction, i, direction, |nonces|);
    }
  }

  /** No nonce is used twice under one key: not by a sender over any number of
      calls, nor by the two senders of opposite directions. */
  lemma NoncesNeverRepeat(mine: seq<seq<Byte>>, theirs: seq<seq<Byte>>, direction: Direction, opposite: Direction)
    requires direction != opposite && NonceLog(mine, direction) && NonceLog(theirs, opposite)
    ensures forall i, j | 0 <= i < j < |mine + theirs| :: (mine + theirs)[i] != (mine + theirs)[j]
  {
    var all := mine + theirs;
    forall i, j | 0 <= i < j < |all|
      ensures all[i] != all[j]
    {
      var (d1, s1) := if i < |mine| then (direction, i) else (opposite, i - |mine|);
      var (d2, s2) := if j < |mine| then (direction, j) else (opposite, j - |mine|);
      if all[i] == all[j] {
        NonceInjective(d1, s1, d2, s2);
      }
    }
  }

  // ---- Opening ----

  function OpenRecord(c: Cipher, direction: Direction, maxPayloadLen: nat, nextSequence: U64, record: seq<Byte>)
    : Result<KtpFrame, CryptoError>
  {
    if nextSequence == U64_MAX then Err(SequenceExhausted)
    else
      match ParseCryptoHeader(record, direction)
      case Err(e) => Err(e)
      case Ok(header) =>
        if header.sequence != nextSequence then Err(SequenceMismatch(nextSequence, header.sequence))
        else if |record| < KTP_CRYPTO_HEADER_LEN + header.ciphertextLen then Err(MalformedRecord("truncated crypto record"))
        else
          match c.open(NonceBytes(direction, header.sequence), record[..24], record[24..24 + header.ciphertextLen])
          case None => Err(AuthFailed)
          case Some(plaintext) =>
            match DecodeFrame(plaintext, maxPayloadLen)
            case Err(e) => Err(KtpFailure(e))
            case Ok(frame) => Ok(frame)
  }

  class KtpCryptoOpen {
    const cipher: Cipher
    const direction: Direction
    const maxPayloadLen: nat
    var nextSequence: U64

    constructor (cipher: Cipher, direction: Direction, maxPayloadLen: nat)
      ensures this.cipher == cipher && this.direction == direction && nextSequence == 0
      ensures this.maxPayloadLen == Min(maxPayloadLen, KTP_MAX_PAYLOAD_LEN)
    {
      this.cipher := cipher;
      this.direction := direction;
      this.maxPayloadLen := Min(maxPayloadLen, KTP_MAX_PAYLOAD_LEN);
      nextSequence := 0;
    }

    method OpenNextRecord(record: seq<Byte>) returns (r: Result<KtpFrame, CryptoError>)
      modifies this
      ensures r == OpenRecord(cipher, direction, maxPayloadLen, old(nextSequence), record)
      ensures nextSequence == old(nextSequence) + if r.Ok? then 1 else 0
    {
      if nextSequence == U64_MAX {
        return Err(SequenceExhausted);
      }
      var parsed := ParseCryptoHeader(record, direction);
      if parsed.Err? {
        return Err(parsed.error);
      }
      var header := parsed.value;
      if header.sequence != nextSequence {
        return Err(SequenceMismatch(nextSequence, header.sequence));
      }
      var frameLen := KTP_CRYPTO_HEADER_LEN + header.ciphertextLen;
      if |record| < frameLen {
        return Err(MalformedRecord("truncated crypto record"));
      }
      var aad := record[..KTP_CRYPTO_HEADER_LEN];
      var ciphertext := record[KTP_CRYPTO_HEADER_LEN..frameLen];
      var decrypted := cipher.open(NonceBytes(direction, header.sequence), aad, ciphertext);
      if decrypted.None? {
        return Err(AuthFailed);
      }
      var decoded := DecodeFrame(decrypted.value, maxPayloadLen);
      if decoded.Err? {
        return Err(KtpFailure(decoded.error));
      }
      nextSequence := nextSequence + 1;
      return Ok(decoded.value);
    }
  }

  /** A record opens to a frame exactly when it starts with the record, sealed
      under the expected sequence, of a plaintext that starts with that frame.
      Plaintext after the frame is accepted and ignored. */
  lemma OpenRecordIff(c: Cipher, direction: Direction, maxPayloadLen: nat, nextSequence: U64, record: seq<Byte>, frame: KtpFrame)
    requires Lawful(c)
    ensures OpenRecord(c, direction, maxPayloadLen, nextSequence, record) == Ok(frame)
       <==> && nextSequence < U64_MAX && Encodable(frame) && |frame.payload| <= maxPayloadLen
            && exists plaintext: seq<Byte> ::
                 && |plaintext| + TAG_LEN < 0x1_0000_0000
                 && FrameBytes(frame) <= plaintext
                 && SealedRecord(c, direction, nextSequence, plaintext) <= record
  {
    if OpenRecord(c, direction, maxPayloadLen, nextSequence, record) == Ok(frame) {
      var plaintext := OpenedIsSealed(c, direction, maxPayloadLen, nextSequence, record, frame);
    }
    if && nextSequence < U64_MAX && Encodable(frame) && |frame.payload| <= maxPayloadLen
       && exists plaintext: seq<Byte> ::
            && |plaintext| + TAG_LEN < 0x1_0000_0000
            && FrameBytes(frame) <= plaintext
            && SealedRecord(c, direction, nextSequence, plaintext) <= record {
      var plaintext: seq<Byte> :| && |plaintext| + TAG_LEN < 0x1_0000_0000
                                  && FrameBytes(frame) <= plaintext
                                  && SealedRecord(c, direction, nextSequence, plaintext) <= record;
      SealedIsOpened(c, direction, maxPayloadLen, nextSequence, record, plaintext, frame);
    }
  }

  lemma OpenedIsSealed(c: Cipher, direction: Direction, maxPayloadLen: nat, nextSequence: U64, record: seq<Byte>, frame: KtpFrame)
    returns (plaintext: seq<Byte>)
    requires Lawful(c)
    requires OpenRecord(c, direction, maxPayloadLen, nextSequence, record) == Ok(frame)
    ensures nextSequence < U64_MAX && Encodable(frame) && |frame.payload| <= maxPayloadLen
    ensures |plaintext| + TAG_LEN < 0x1_0000_0000
    ensures FrameBytes(frame) <= plaintext
    ensures SealedRecord(c, direction, nextSequence, plaintext) <= record
  {
    hide DecodeFrame, Encodable, SealedRecord, ParseCryptoHeader;
    var len := ParseCryptoHeader(record, direction).value.ciphertextLen;
    plaintext := c.open(NonceBytes(direction, nextSequence), record[..24], record[24..24 + len]).value;
    DecodedIsEncoded(plaintext, maxPayloadLen, frame);
    DecryptedIsSealed(c, direction, nextSequence, record, len, plaintext);
  }

  lemma DecryptedIsSealed(c: Cipher, direction: Direction, sequence: U64, record: seq<Byte>, len: nat, plaintext: seq<Byte>)
    requires Lawful(c) && 24 + len <= |record|
    requires ParseCryptoHeader(record, direction) == Ok(CryptoHeader(sequence, len))
    requires c.open(NonceBytes(direction, sequence), record[..24], record[24..24 + len]) == Some(plaintext)
    ensures |plaintext| + TAG_LEN == len < 0x1_0000_0000
    ensures SealedRecord(c, direction, sequence, plaintext) <= record
  {
    CryptoHeaderIff(record, direction, CryptoHeader(sequence, len));
    var h, sealed := RecordHeader(direction, sequence, len), record[24..24 + len];
    assert record[..24] == h;
    assert c.seal(NonceBytes(direction, sequence), h, plaintext) == sealed;
    assert record[..24 + len] == h + sealed;
  }

  lemma SealedIsOpened(c: Cipher, direction: Direction, maxPayloadLen: nat, nextSequence: U64, record: seq<Byte>,
                       plaintext: seq<Byte>, frame: KtpFrame)
    requires Lawful(c) && nextSequence < U64_MAX
    requires Encodable(frame) && |frame.payload| <= maxPayloadLen && FrameBytes(frame) <= plaintext
    requires |plaintext| + TAG_LEN < 0x1_0000_0000
    requires SealedRecord(c, direction, nextSequence, plaintext) <= record
    ensures OpenRecord(c, direction, maxPayloadLen, nextSequence, record) == Ok(frame)
  {
    hide DecodeFrame, Encodable, ParseCryptoHeader;
    var n := |plaintext| + TAG_LEN;
    var header := RecordHeader(direction, nextSequence, n);
    var nonce := NonceBytes(direction, nextSequence);
    var sealed := c.seal(nonce, header, plaintext);
    assert record[..24 + n] == header + sealed;
    assert header <= record && record[..24] == header;
    assert record[24..24 + n] == record[..24 + n][24..] == sealed;
    CryptoHeaderIff(record, direction, CryptoHeader(nextSequence, n));
    EncodedIsDecoded(plaintext, maxPayloadLen, frame);
  }
}
