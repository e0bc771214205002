/** Payloads of the session frames: big-endian integers and strings with a
    two-byte length, written into a vector and read back through a cursor. */
module TunnelSession {
  import opened Bytes

  datatype PayloadError =
    | Truncated(field: string)
    | StringTooLong(field: string)
    | InvalidUtf8(field: string)
    | TrailingBytes(count: nat)

  /** Length of the well-formed UTF-8 sequence at the front, or 0 if there is
      none (table 3-7 of the Unicode Standard). */
  function Utf8Step(s: seq<Byte>): (n: nat)
    ensures n <= |s|
  {
    if |s| >= 1 && s[0] <= 0x7F then 1
    else if |s| >= 2 && 0xC2 <= s[0] <= 0xDF && Continues(s[1]) then 2
    else if |s| >= 3 && Continues(s[2])
         && (|| (s[0] == 0xE0 && 0xA0 <= s[1] <= 0xBF)
             || ((0xE1 <= s[0] <= 0xEC || 0xEE <= s[0] <= 0xEF) && Continues(s[1]))
             || (s[0] == 0xED && 0x80 <= s[1] <= 0x9F)) then 3
    else if |s| >= 4 && Continues(s[2]) && Continues(s[3])
         && (|| (s[0] == 0xF0 && 0x90 <= s[1] <= 0xBF)
             || (0xF1 <= s[0] <= 0xF3 && Continues(s[1]))
             || (s[0] == 0xF4 && 0x80 <= s[1] <= 0x8F)) then 4
    else 0
  }

  predicate Continues(b: Byte) {
    0x80 <= b <= 0xBF
  }

  predicate ValidUtf8(s: seq<Byte>)
    decreases |s|
  {
    s == [] || (Utf8Step(s) > 0 && ValidUtf8(s[Utf8Step(s)..]))
  }

  /** A string is its UTF-8 bytes. */
  type Utf8 = s: seq<Byte> | ValidUtf8(s) witness []

  datatype OpenPayload = OpenPayload(ruleId: U64, listenHost: Utf8, listenPort: U16, sourceAddr: Utf8)

  datatype ErrorPayload = ErrorPayload(ruleId: U64, code: Utf8, message: Utf8)

  // ---- What is on the wire ----

  predicate Fits(s: seq<Byte>) {
    |s| <= 0xFFFF
  }

  function StringBytes(s: seq<Byte>): seq<Byte> {
    ToBe(|s|, 2) + s
  }

  function OpenBytes(p: OpenPayload): seq<Byte> {
    ToBe(p.ruleId, 8) + (StringBytes(p.listenHost) + (ToBe(p.listenPort, 2) + StringBytes(p.sourceAddr)))
  }

  function ErrorBytes(p: ErrorPayload): seq<Byte> {
    ToBe(p.ruleId, 8) + (StringBytes(p.code) + StringBytes(p.message))
  }

  // ---- Encoders ----

  method WriteString(bytes: ByteVec, field: string, value: Utf8) returns (error: Option<PayloadError>)
    modifies bytes
    ensures error == if Fits(value) then None else Some(StringTooLong(field))
    ensures bytes.data == old(bytes.data) + if Fits(value) then StringBytes(value) else []
  {
    if |value| > 0xFFFF {
      return Some(StringTooLong(field));
    }
    bytes.data := bytes.data + ToBe(|value|, 2);
    bytes.data := bytes.data + value;
    return None;
  }

  method EncodeSessionOpenPayload(payload: OpenPayload) returns (r: Result<seq<Byte>, PayloadError>)
    ensures r == if !Fits(payload.listenHost) then Err(StringTooLong("listen_host"))
                 else if !Fits(payload.sourceAddr) then Err(StringTooLong("source_addr"))
                 else Ok(OpenBytes(payload))
  {
    var bytes := new ByteVec();
    bytes.data := ToBe(payload.ruleId, 8);
    var error := WriteString(bytes, "listen_host", payload.listenHost);
    if error.Some? {
      return Err(error.value);
    }
    bytes.data := bytes.data + ToBe(payload.listenPort, 2);
    error := WriteString(bytes, "source_addr", payload.sourceAddr);
    if error.Some? {
      return Err(error.value);
    }
    ghost var id, host := ToBe(payload.ruleId, 8), StringBytes(payload.listenHost);
    ghost var port, source := ToBe(payload.listenPort, 2), StringBytes(payload.sourceAddr);
    assert bytes.data == ((id + host) + port) + source;
    AppendAssociates(id + host, port, source);
    AppendAssociates(id, host, port + source);
    return Ok(bytes.data);
  }

  method EncodeSessionErrorPayload(payload: ErrorPayload) returns (r: Result<seq<Byte>, PayloadError>)
    ensures r == if !Fits(payload.code) then Err(StringTooLong("code"))
                 else if !Fits(payload.message) then Err(StringTooLong("message"))
                 else Ok(ErrorBytes(payload))
  {
    var bytes := new ByteVec();
    bytes.data := ToBe(payload.ruleId, 8);
    var error := WriteString(bytes, "code", payload.code);
    if error.Some? {
      return Err(error.value);
    }
    error := WriteString(bytes, "message", payload.message);
    if error.Some? {
      return Err(error.value);
    }
    AppendAssociates(ToBe(payload.ruleId, 8), StringBytes(payload.code), StringBytes(payload.message));
    return Ok(bytes.data);
  }

  // ---- Reading a field off the front ----

  function TakeU64(s: seq<Byte>, field: string): Result<(U64, seq<Byte>), PayloadError> {
    if |s| < 8 then Err(Truncated(field)) else Ok((ReadU64(s[..8]), s[8..]))
  }

  function TakeU16(s: seq<Byte>, field: string): Result<(U16, seq<Byte>), PayloadError> {
    if |s| < 2 then Err(Truncated(field)) else Ok((ReadU16(s[..2]), s[2..]))
  }

  function TakeString(s: seq<Byte>, field: string): Result<(Utf8, seq<Byte>), PayloadError> {
    match TakeU16(s, field)
    case Err(e) => Err(e)
    case Ok((n, rest)) =>
      if |rest| < n then Err(Truncated(field))
      else if !ValidUtf8(rest[..n]) then Err(InvalidUtf8(field))
      else Ok((rest[..n], rest[n..]))
  }

  function AtEnd<T>(value: T, rest: seq<Byte>): Result<T, PayloadError> {
    if rest != [] then Err(TrailingBytes(|rest|)) else Ok(value)
  }

  /** What the field readers, run in order, make of a payload. */
  function DecodeOpen(bytes: seq<Byte>): Result<OpenPayload, PayloadError> {
    match TakeU64(bytes, "rule_id")
    case Err(e) => Err(e)
    case Ok((ruleId, r1)) =>
      match TakeString(r1, "listen_host")
      case Err(e) => Err(e)
      case Ok((listenHost, r2)) =>
        match TakeU16(r2, "listen_port")
        case Err(e) => Err(e)
        case Ok((listenPort, r3)) =>
          match TakeString(r3, "source_addr")
          case Err(e) => Err(e)
          case Ok((sourceAddr, r4)) => AtEnd(OpenPayload(ruleId, listenHost, listenPort, sourceAddr), r4)
  }

  function DecodeAccept(bytes: seq<Byte>): Result<U64, PayloadError> {
    match TakeU64(bytes, "rule_id")
    case Err(e) => Err(e)
    case Ok((ruleId, r1)) => AtEnd(ruleId, r1)
  }

  function DecodeError(bytes: seq<Byte>): Result<ErrorPayload, PayloadError> {
    match TakeU64(bytes, "rule_id")
    case Err(e) => Err(e)
    case Ok((ruleId, r1)) =>
      match TakeString(r1, "code")
      case Err(e) => Err(e)
      case Ok((code, r2)) =>
        match TakeString(r2, "message")
        case Err(e) => Err(e)
        case Ok((message, r3)) => AtEnd(ErrorPayload(ruleId, code, message), r3)
  }

  // ---- The cursor and the decoders ----

  class PayloadCursor {
    const bytes: seq<Byte>
    var offset: nat

    ghost predicate Valid()
      reads this
    {
      offset <= |bytes|
    }

    ghost function Rest(): seq<Byte>
      requires Valid()
      reads this
    {
      bytes[offset..]
    }

    constructor (bytes: seq<Byte>)
      ensures Valid() && this.bytes == bytes && Rest() == bytes
    {
      this.bytes := bytes;
      offset := 0;
    }

    method ReadNextU64(field: string) returns (r: Result<U64, PayloadError>)
      requires Valid()
      modifies this
      ensures Valid()
      ensures match TakeU64(old(Rest()), field)
              case Ok((v, rest)) => r == Ok(v) && Rest() == rest
              case Err(e) => r == Err(e) && offset == old(offset)
    {
      var end := offset + 8;
      if |bytes| < end {
        return Err(Truncated(field));
      }
      assert Rest()[..8] == bytes[offset..end];
      var value := ReadU64(bytes[offset..end]);
      offset := end;
      return Ok(value);
    }

    method ReadNextU16(field: string) returns (r: Result<U16, PayloadError>)
      requires Valid()
      modifies this
      ensures Valid()
      ensures match TakeU16(old(Rest()), field)
              case Ok((v, rest)) => r == Ok(v) && Rest() == rest && offset == old(offset) + 2
              case Err(e) => r == Err(e) && offset == old(offset)
    {
      var end := offset + 2;
      if |bytes| < end {
        return Err(Truncated(field));
      }
      assert Rest()[..2] == bytes[offset..end];
      var value := ReadU16(bytes[offset..end]);
      offset := end;
      return Ok(value);
    }

    /** A string that is cut short or not UTF-8 leaves the cursor after its length. */
    method ReadNextString(field: string) returns (r: Result<Utf8, PayloadError>)
      requires Valid()
      modifies this
      ensures Valid()
      ensures match TakeString(old(Rest()), field)
              case Ok((v, rest)) => r == Ok(v) && Rest() == rest
              case Err(e) => r == Err(e) && offset == old(offset) + if |old(Rest())| < 2 then 0 else 2
    {
      var length := ReadNextU16(field);
      if length.Err? {
        return Err(length.error);
      }
      var end := offset + length.value;
      if |bytes| < end {
        return Err(Truncated(field));
      }
      assert Rest()[..length.value] == bytes[offset..end];
      if !ValidUtf8(bytes[offset..end]) {
        return Err(InvalidUtf8(field));
      }
      var value := bytes[offset..end];
      offset := end;
      return Ok(value);
    }

    method ExpectEnd() returns (error: Option<PayloadError>)
      requires Valid()
      ensures error == if Rest() == [] then None else Some(TrailingBytes(|Rest()|))
    {
      var trailing := |bytes| - offset;
      if trailing != 0 {
        return Some(TrailingBytes(trailing));
      }
      return None;
    }
  }

  method DecodeSessionOpenPayload(bytes: seq<Byte>) returns (r: Result<OpenPayload, PayloadError>)
    ensures r == DecodeOpen(bytes)
  {
    var cursor := new PayloadCursor(bytes);
    var ruleId := cursor.ReadNextU64("rule_id");
    if ruleId.Err? { return Err(ruleId.error); }
    var listenHost := cursor.ReadNextString("listen_host");
    if listenHost.Err? { return Err(listenHost.error); }
    var listenPort := cursor.ReadNextU16("listen_port");
    if listenPort.Err? { return Err(listenPort.error); }
    var sourceAddr := cursor.ReadNextString("source_addr");
    if sourceAddr.Err? { return Err(sourceAddr.error); }
    var end := cursor.ExpectEnd();
    if end.Some? { return Err(end.value); }
    return Ok(OpenPayload(ruleId.value, listenHost.value, listenPort.value, sourceAddr.value));
  }

  method DecodeSessionAcceptPayload(bytes: seq<Byte>) returns (r: Result<U64, PayloadError>)
    ensures r == DecodeAccept(bytes)
  {
    var cursor := new PayloadCursor(bytes);
    var ruleId := cursor.ReadNextU64("rule_id");
    if ruleId.Err? { return Err(ruleId.error); }
    var end := cursor.ExpectEnd();
    if end.Some? { return Err(end.value); }
    return Ok(ruleId.value);
  }

  method DecodeSessionErrorPayload(bytes: seq<Byte>) returns (r: Result<ErrorPayload, PayloadError>)
    ensures r == DecodeError(bytes)
  {
    var cursor := new PayloadCursor(bytes);
    var ruleId := cursor.ReadNextU64("rule_id");
    if ruleId.Err? { return Err(ruleId.error); }
    var code := cursor.ReadNextString("code");
    if code.Err? { return Err(code.error); }
    var message := cursor.ReadNextString("message");
    if message.Err? { return Err(message.error); }
    var end := cursor.ExpectEnd();
    if end.Some? { return Err(end.value); }
    return Ok(ErrorPayload(ruleId.value, code.value, message.value));
  }

  // ---- Canonical in both directions ----

  lemma TakeU64Iff(s: seq<Byte>, field: string, v: U64, rest: seq<Byte>)
    ensures TakeU64(s, field) == Ok((v, rest)) <==> s == ToBe(v, 8) + rest
  {
    PowersOf256();
    FromBeToBe(v, 8);
    if TakeU64(s, field) == Ok((v, rest)) {
      ToBeFromBe(s[..8]);
      assert s == s[..8] + s[8..];
    }
    if s == ToBe(v, 8) + rest {
      assert s[..8] == ToBe(v, 8) && s[8..] == rest;
    }
  }

  lemma TakeU16Iff(s: seq<Byte>, field: string, v: U16, rest: seq<Byte>)
    ensures TakeU16(s, field) == Ok((v, rest)) <==> s == ToBe(v, 2) + rest
  {
    PowersOf256();
    FromBeToBe(v, 2);
    if TakeU16(s, field) == Ok((v, rest)) {
      ToBeFromBe(s[..2]);
      assert s == s[..2] + s[2..];
    }
    if s == ToBe(v, 2) + rest {
      assert s[..2] == ToBe(v, 2) && s[2..] == rest;
    }
  }

  lemma TakeStringIff(s: seq<Byte>, field: string, v: Utf8, rest: seq<Byte>)
    ensures TakeString(s, field) == Ok((v, rest)) <==> Fits(v) && s == StringBytes(v) + rest
  {
    hide TakeU16, ToBe;
    AppendAssociates(ToBe(|v|, 2), v, rest);
    if TakeString(s, field) == Ok((v, rest)) {
      var (n, tail) := TakeU16(s, field).value;
      TakeU16Iff(s, field, n, tail);
      assert tail == v + rest;
    }
    if Fits(v) && s == StringBytes(v) + rest {
      TakeU16Iff(s, field, |v|, v + rest);
      assert (v + rest)[..|v|] == v && (v + rest)[|v|..] == rest;
    }
  }

  /** Decoding gives an open request exactly when the bytes are its encoding. */
  lemma OpenPayloadCanonical(bytes: seq<Byte>, p: OpenPayload)
    ensures DecodeOpen(bytes) == Ok(p) <==> Fits(p.listenHost) && Fits(p.sourceAddr) && bytes == OpenBytes(p)
  {
    if DecodeOpen(bytes) == Ok(p) {
      var r1 := TakeU64(bytes, "rule_id").value.1;
      TakeU64Iff(bytes, "rule_id", p.ruleId, r1);
      var r2 := TakeString(r1, "listen_host").value.1;
      TakeStringIff(r1, "listen_host", p.listenHost, r2);
      var r3 := TakeU16(r2, "listen_port").value.1;
      TakeU16Iff(r2, "listen_port", p.listenPort, r3);
      TakeStringIff(r3, "source_addr", p.sourceAddr, []);
    }
    if Fits(p.listenHost) && Fits(p.sourceAddr) && bytes == OpenBytes(p) {
      var r3 := StringBytes(p.sourceAddr);
      var r2 := ToBe(p.listenPort, 2) + r3;
      var r1 := StringBytes(p.listenHost) + r2;
      TakeU64Iff(bytes, "rule_id", p.ruleId, r1);
      TakeStringIff(r1, "listen_host", p.listenHost, r2);
      TakeU16Iff(r2, "listen_port", p.listenPort, r3);
      assert r3 == StringBytes(p.sourceAddr) + [];
      TakeStringIff(r3, "source_addr", p.sourceAddr, []);
    }
  }

  lemma AcceptPayloadCanonical(bytes: seq<Byte>, ruleId: U64)
    ensures DecodeAccept(bytes) == Ok(ruleId) <==> bytes == ToBe(ruleId, 8)
  {
    assert ToBe(ruleId, 8) + [] == ToBe(ruleId, 8);
    TakeU64Iff(bytes, "rule_id", ruleId, []);
  }

  lemma ErrorPayloadCanonical(bytes: seq<Byte>, p: ErrorPayload)
    ensures DecodeError(bytes) == Ok(p) <==> Fits(p.code) && Fits(p.message) && bytes == ErrorBytes(p)
  {
    if DecodeError(bytes) == Ok(p) {
      var r1 := TakeU64(bytes, "rule_id").value.1;
      TakeU64Iff(bytes, "rule_id", p.ruleId, r1);
      var r2 := TakeString(r1, "code").value.1;
      TakeStringIff(r1, "code", p.code, r2);
      TakeStringIff(r2, "message", p.message, []);
    }
    if Fits(p.code) && Fits(p.message) && bytes == ErrorBytes(p) {
      var r2 := StringBytes(p.message);
      var r1 := StringBytes(p.code) + r2;
      TakeU64Iff(bytes, "rule_id", p.ruleId, r1);
      TakeStringIff(r1, "code", p.code, r2);
      assert r2 == StringBytes(p.message) + [];
      TakeStringIff(r2, "message", p.message, []);
    }
  }

  // ---- Refused payloads ----

  /** A string cut short is reported as truncated. */
  lemma CutStringFails(s: seq<Byte>, field: string, v: Utf8)
    requires Fits(v) && s < StringBytes(v)
    ensures TakeString(s, field) == Err(Truncated(field))
  {
    if |s| >= 2 {
      var tail := s[2..];
      assert s == ToBe(|v|, 2) + tail by {
        assert s[..2] == StringBytes(v)[..2] == ToBe(|v|, 2);
      }
      TakeU16Iff(s, field, |v|, tail);
    }
  }

  /** Bytes that are no UTF-8 are refused as such. */
  lemma BadStringFails(s: seq<Byte>, field: string, v: seq<Byte>, rest: seq<Byte>)
    requires Fits(v) && !ValidUtf8(v) && s == StringBytes(v) + rest
    ensures TakeString(s, field) == Err(InvalidUtf8(field))
  {
    AppendAssociates(ToBe(|v|, 2), v, rest);
    TakeU16Iff(s, field, |v|, v + rest);
    assert (v + rest)[..|v|] == v;
  }

  /** An open request cut short names the first field that is incomplete. */
  lemma CutOpenFails(p: OpenPayload, n: nat)
    requires Fits(p.listenHost) && Fits(p.sourceAddr) && n < |OpenBytes(p)|
    ensures var host := 10 + |p.listenHost|;
            DecodeOpen(OpenBytes(p)[..n])
            == Err(Truncated(if n < 8 then "rule_id" else if n < host then "listen_host" else if n < host + 2 then "listen_port" else "source_addr"))
  {
    hide TakeU64, TakeU16, TakeString, ToBe;
    var bytes := OpenBytes(p)[..n];
    var r3 := StringBytes(p.sourceAddr);
    var r2 := ToBe(p.listenPort, 2) + r3;
    var r1 := StringBytes(p.listenHost) + r2;
    if n < 8 {
      ShortIntegerFails(bytes, "rule_id");
    } else {
      var left := r1[..n - 8];
      assert bytes == ToBe(p.ruleId, 8) + left;
      TakeU64Iff(bytes, "rule_id", p.ruleId, left);
      var m := |StringBytes(p.listenHost)|;
      if |left| < m {
        assert left == StringBytes(p.listenHost)[..|left|];
        CutStringFails(left, "listen_host", p.listenHost);
      } else {
        var left2 := r2[..|left| - m];
        assert left == StringBytes(p.listenHost) + left2;
        TakeStringIff(left, "listen_host", p.listenHost, left2);
        if |left2| < 2 {
          ShortIntegerFails(left2, "listen_port");
        } else {
          var left3 := r3[..|left2| - 2];
          assert left2 == ToBe(p.listenPort, 2) + left3;
          TakeU16Iff(left2, "listen_port", p.listenPort, left3);
          CutStringFails(left3, "source_addr", p.sourceAddr);
        }
      }
    }
  }

  lemma ShortIntegerFails(s: seq<Byte>, field: string)
    ensures |s| < 8 ==> TakeU64(s, field) == Err(Truncated(field))
    ensures |s| < 2 ==> TakeU16(s, field) == Err(Truncated(field))
  {
  }

  /** Bytes behind a complete open request are counted and refused. */
  lemma OpenTrailerFails(p: OpenPayload, extra: seq<Byte>)
    requires Fits(p.listenHost) && Fits(p.sourceAddr) && extra != []
    ensures DecodeOpen(OpenBytes(p) + extra) == Err(TrailingBytes(|extra|))
  {
    hide TakeU64, TakeU16, TakeString, ToBe;
    var r3 := StringBytes(p.sourceAddr) + extra;
    var r2 := ToBe(p.listenPort, 2) + r3;
    var r1 := StringBytes(p.listenHost) + r2;
    assert OpenBytes(p) + extra == ToBe(p.ruleId, 8) + r1;
    TakeU64Iff(OpenBytes(p) + extra, "rule_id", p.ruleId, r1);
    TakeStringIff(r1, "listen_host", p.listenHost, r2);
    TakeU16Iff(r2, "listen_port", p.listenPort, r3);
    TakeStringIff(r3, "source_addr", p.sourceAddr, extra);
  }

  /** The same for an error report. */
  lemma CutErrorFails(p: ErrorPayload, n: nat)
    requires Fits(p.code) && Fits(p.message) && n < |ErrorBytes(p)|
    ensures DecodeError(ErrorBytes(p)[..n])
         == Err(Truncated(if n < 8 then "rule_id" else if n < 10 + |p.code| then "code" else "message"))
  {
    hide TakeU64, TakeString, ToBe;
    var bytes := ErrorBytes(p)[..n];
    var r2 := StringBytes(p.message);
    var r1 := StringBytes(p.code) + r2;
    if n < 8 {
      ShortIntegerFails(bytes, "rule_id");
    } else {
      var left := r1[..n - 8];
      assert bytes == ToBe(p.ruleId, 8) + left;
      TakeU64Iff(bytes, "rule_id", p.ruleId, left);
      var m := |StringBytes(p.code)|;
      if |left| < m {
        assert left == StringBytes(p.code)[..|left|];
        CutStringFails(left, "code", p.code);
      } else {
        var left2 := r2[..|left| - m];
        assert left == StringBytes(p.code) + left2;
        TakeStringIff(left, "code", p.code, left2);
        CutStringFails(left2, "message", p.message);
      }
    }
  }

  lemma ErrorTrailerFails(p: ErrorPayload, extra: seq<Byte>)
    requires Fits(p.code) && Fits(p.message) && extra != []
    ensures DecodeError(ErrorBytes(p) + extra) == Err(TrailingBytes(|extra|))
  {
    hide TakeU64, TakeString, ToBe;
    var r2 := StringBytes(p.message) + extra;
    var r1 := StringBytes(p.code) + r2;
    assert ErrorBytes(p) + extra == ToBe(p.ruleId, 8) + r1;
    TakeU64Iff(ErrorBytes(p) + extra, "rule_id", p.ruleId, r1);
    TakeStringIff(r1, "code", p.code, r2);
    TakeStringIff(r2, "message", p.message, extra);
  }

  // ---- UTF-8 ----

  /** Unicode code points other than surrogates. */
  type Scalar = c: int | 0 <= c < 0xD800 || 0xE000 <= c < 0x11_0000

  /** Section 3 of RFC 3629. */
  function ScalarBytes(c: Scalar): (s: seq<Byte>)
    ensures 1 <= |s| <= 4
  {
    if c < 0x80 then [c]
    else if c < 0x800 then [0xC0 + c / 0x40, 0x80 + c % 0x40]
    else if c < 0x1_0000 then [0xE0 + c / 0x40 / 0x40, 0x80 + c / 0x40 % 0x40, 0x80 + c % 0x40]
    else [0xF0 + c / 0x40 / 0x40 / 0x40, 0x80 + c / 0x40 / 0x40 % 0x40, 0x80 + c / 0x40 % 0x40, 0x80 + c % 0x40]
  }

  function TextBytes(text: seq<Scalar>): seq<Byte> {
    if text == [] then [] else ScalarBytes(text[0]) + TextBytes(text[1..])
  }

  lemma ScalarIsStep(c: Scalar, rest: seq<Byte>)
    ensures Utf8Step(ScalarBytes(c) + rest) == |ScalarBytes(c)|
  {
    var s := ScalarBytes(c) + rest;
    assert forall i | 0 <= i < |ScalarBytes(c)| :: s[i] == ScalarBytes(c)[i];
  }

  /** A number with six more bits behind it. */
  function SixBits(high: int, low: int): (c: int)
    requires 0 <= low < 0x40
    ensures c == 0x40 * high + low && c / 0x40 == high && c % 0x40 == low
  {
    0x40 * high + low
  }

  lemma ThreeBytes(a: Byte, b: Byte, d: Byte) returns (c: Scalar)
    requires Utf8Step([a, b, d]) == 3
    ensures ScalarBytes(c) == [a, b, d]
  {
    c := SixBits(SixBits(a as int - 0xE0, b as int - 0x80), d as int - 0x80);
  }

  lemma FourBytes(a: Byte, b: Byte, d: Byte, e: Byte) returns (c: Scalar)
    requires Utf8Step([a, b, d, e]) == 4
    ensures ScalarBytes(c) == [a, b, d, e]
  {
    c := SixBits(SixBits(SixBits(a as int - 0xF0, b as int - 0x80), d as int - 0x80), e as int - 0x80);
  }

  lemma StepIsScalar(s: seq<Byte>) returns (c: Scalar)
    requires Utf8Step(s) > 0
    ensures s[..Utf8Step(s)] == ScalarBytes(c)
  {
    var n := Utf8Step(s);
    if n == 1 {
      c := s[0] as int;
    } else if n == 2 {
      c := SixBits(s[0] as int - 0xC0, s[1] as int - 0x80);
    } else if n == 3 {
      assert Utf8Step([s[0], s[1], s[2]]) == 3;
      hide ScalarBytes;
      c := ThreeBytes(s[0], s[1], s[2]);
    } else {
      assert Utf8Step([s[0], s[1], s[2], s[3]]) == 4;
      hide ScalarBytes;
      c := FourBytes(s[0], s[1], s[2], s[3]);
    }
  }

  /** A byte string counts as UTF-8 if and only if it encodes some text. */
  lemma {:induction false} Utf8Iff(s: seq<Byte>)
    ensures ValidUtf8(s) <==> exists text: seq<Scalar> :: TextBytes(text) == s
  {
    if ValidUtf8(s) {
      var text := TextOf(s);
    }
    if text: seq<Scalar> :| TextBytes(text) == s {
      TextIsUtf8(text);
    }
  }

  lemma {:induction false} TextOf(s: seq<Byte>) returns (text: seq<Scalar>)
    requires ValidUtf8(s)
    ensures TextBytes(text) == s
    decreases |s|
  {
    if s == [] {
      text := [];
    } else {
      var n := Utf8Step(s);
      var c := StepIsScalar(s);
      var rest := TextOf(s[n..]);
      text := [c] + rest;
      assert text[1..] == rest && s == s[..n] + s[n..];
    }
  }

  lemma {:induction false} TextIsUtf8(text: seq<Scalar>)
    ensures ValidUtf8(TextBytes(text))
  {
    if text != [] {
      TextIsUtf8(text[1..]);
      var first, rest := ScalarBytes(text[0]), TextBytes(text[1..]);
      ScalarIsStep(text[0], rest);
      assert (first + rest)[|first|..] == rest;
    }
  }
}
