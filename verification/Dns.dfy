/** The hand-written DNS client: query construction and response parsing
    (sections 4.1.1 to 4.1.4 of RFC 1035, section 2 of RFC 3596). */
module Dns {
  import opened Bytes

  const DOT: Byte := 0x2E
  const TYPE_A: U16 := 1
  const TYPE_AAAA: U16 := 28
  const CLASS_IN: U16 := 1

  datatype DnsError =
    | InvalidName | ShortResponse | MismatchedId | ResponseError | TruncatedQuestion | TruncatedAnswer | TruncatedRdata
    | TruncatedName | TruncatedPointer | TruncatedLabel

  /** An address: four bytes or sixteen. */
  type Address = seq<Byte>

  // ---- Names and queries ----

  function TrimDots(host: seq<Byte>): seq<Byte> {
    if host != [] && host[|host| - 1] == DOT then TrimDots(host[..|host| - 1]) else host
  }

  /** Exactly the trailing dots are cut off. */
  lemma {:induction false} TrimDotsIs(host: seq<Byte>)
    ensures TrimDots(host) <= host && forall k | |TrimDots(host)| <= k < |host| :: host[k] == DOT
    ensures TrimDots(host) != [] ==> TrimDots(host)[|TrimDots(host)| - 1] != DOT
  {
    if host != [] && host[|host| - 1] == DOT {
      TrimDotsIs(host[..|host| - 1]);
    }
  }

  /** The pieces between the dots; `piece` is the one being read. */
  function SplitDots(host: seq<Byte>, piece: seq<Byte>): (labels: seq<seq<Byte>>)
    ensures labels != []
  {
    if host == [] then [piece]
    else if host[0] == DOT then [piece] + SplitDots(host[1..], [])
    else SplitDots(host[1..], piece + [host[0]])
  }

  function Labels(host: seq<Byte>): seq<seq<Byte>> {
    SplitDots(TrimDots(host), [])
  }

  function JoinDots(labels: seq<seq<Byte>>): seq<Byte>
    requires labels != []
  {
    if |labels| == 1 then labels[0] else labels[0] + [DOT] + JoinDots(labels[1..])
  }

  /** The labels are the host without its trailing dots, cut at the dots and
      nowhere else. */
  lemma {:induction false} LabelsJoin(host: seq<Byte>, piece: seq<Byte>)
    requires DOT !in piece
    ensures JoinDots(SplitDots(host, piece)) == piece + host
    ensures forall k | 0 <= k < |SplitDots(host, piece)| :: DOT !in SplitDots(host, piece)[k]
    decreases |host|
  {
    if host != [] {
      if host[0] == DOT {
        LabelsJoin(host[1..], []);
        var rest := SplitDots(host[1..], []);
        assert ([piece] + rest)[1..] == rest;
        assert host == [DOT] + host[1..];
        assert piece + [DOT] + ([] + host[1..]) == piece + host;
      } else {
        LabelsJoin(host[1..], piece + [host[0]]);
        assert (piece + [host[0]]) + host[1..] == piece + host;
      }
    }
  }

  predicate Acceptable(host: seq<Byte>) {
    forall k | 0 <= k < |Labels(host)| :: 1 <= |Labels(host)[k]| <= 63
  }

  /** Labels that a reader can step over: no length byte is a pointer. */
  predicate Skippable(labels: seq<seq<Byte>>) {
    forall k | 0 <= k < |labels| :: 1 <= |labels[k]| < 0xC0
  }

  function LabelBytes(piece: seq<Byte>): seq<Byte>
    requires 1 <= |piece| < 0xC0
  {
    [|piece|] + piece
  }

  function LabelsBytes(labels: seq<seq<Byte>>): seq<Byte>
    requires Skippable(labels)
  {
    if labels == [] then [] else LabelBytes(labels[0]) + LabelsBytes(labels[1..])
  }

  function HeaderBytes(id: U16, flags: nat, questions: nat, answers: nat, others: seq<Byte>): (h: seq<Byte>)
    requires |others| == 4
    ensures |h| == 12
  {
    ToBe(id, 2) + ToBe(flags, 2) + ToBe(questions, 2) + ToBe(answers, 2) + others
  }

  function QuestionTail(qtype: U16): (t: seq<Byte>)
    ensures |t| == 4
  {
    ToBe(qtype, 2) + ToBe(CLASS_IN, 2)
  }

  function QueryBytes(id: U16, labels: seq<seq<Byte>>, qtype: U16): seq<Byte>
    requires Skippable(labels)
  {
    HeaderBytes(id, 0x0100, 1, 0, [0, 0, 0, 0]) + (LabelsBytes(labels) + [0]) + QuestionTail(qtype)
  }

  method BuildDnsQuery(id: U16, host: seq<Byte>, qtype: U16) returns (r: Result<seq<Byte>, DnsError>)
    ensures r.Ok? <==> Acceptable(host)
    ensures r.Ok? ==> r.value == QueryBytes(id, Labels(host), qtype)
    ensures r.Err? ==> r.error == InvalidName
  {
    var packet := HeaderBytes(id, 0x0100, 1, 0, [0, 0, 0, 0]);
    ghost var header := packet;
    var labels := Labels(host);
    assert labels[..0] == [] && packet == header + [];
    for i := 0 to |labels|
      invariant forall k | 0 <= k < i :: 1 <= |labels[k]| <= 63
      invariant packet == header + LabelsBytes(labels[..i])
    {
      var piece := labels[i];
      if piece == [] || |piece| > 63 {
        return Err(InvalidName);
      }
      LabelsBytesAppend(labels[..i], piece);
      assert labels[..i] + [piece] == labels[..i + 1];
      AppendAssociates(header, LabelsBytes(labels[..i]), LabelBytes(piece));
      AppendAssociates(header + LabelsBytes(labels[..i]), [|piece|], piece);
      packet := packet + [|piece|];
      packet := packet + piece;
    }
    assert labels[..|labels|] == labels;
    AppendAssociates(header, LabelsBytes(labels), [0]);
    packet := packet + [0];
    AppendAssociates(packet, ToBe(qtype, 2), ToBe(CLASS_IN, 2));
    packet := packet + ToBe(qtype, 2);
    packet := packet + ToBe(CLASS_IN, 2);
    return Ok(packet);
  }

  lemma {:induction false} LabelsBytesAppend(labels: seq<seq<Byte>>, piece: seq<Byte>)
    requires Skippable(labels) && 1 <= |piece| < 0xC0
    ensures LabelsBytes(labels + [piece]) == LabelsBytes(labels) + LabelBytes(piece)
  {
    if labels == [] {
      assert labels + [piece] == [piece] && [piece][1..] == [];
      assert LabelBytes(piece) + [] == LabelBytes(piece);
    } else {
      LabelsBytesAppend(labels[1..], piece);
      assert (labels + [piece])[0] == labels[0] && (labels + [piece])[1..] == labels[1..] + [piece];
      AppendAssociates(LabelBytes(labels[0]), LabelsBytes(labels[1..]), LabelBytes(piece));
    }
  }

  // ---- Skipping a name ----

  function SkipName(packet: seq<Byte>, offset: nat): (r: Result<nat, DnsError>)
    ensures r.Ok? ==> offset < r.value <= |packet|
    decreases |packet| - offset
  {
    if offset >= |packet| then Err(TruncatedName)
    else
      var len := packet[offset];
      if len >= 0xC0 then
        if offset + 1 >= |packet| then Err(TruncatedPointer) else Ok(offset + 2)
      else if len == 0 then Ok(offset + 1)
      else if offset + 1 + len > |packet| then Err(TruncatedLabel)
      else SkipName(packet, offset + 1 + len)
  }

  method SkipDnsName(packet: seq<Byte>, start: nat) returns (r: Result<nat, DnsError>)
    ensures r == SkipName(packet, start)
  {
    var offset := start;
    while true
      invariant SkipName(packet, offset) == SkipName(packet, start)
      decreases |packet| - offset
    {
      if offset >= |packet| {
        return Err(TruncatedName);
      }
      var len := packet[offset];
      if len >= 0xC0 {
        if offset + 1 >= |packet| {
          return Err(TruncatedPointer);
        }
        return Ok(offset + 2);
      }
      if len == 0 {
        return Ok(offset + 1);
      }
      if offset + 1 + len > |packet| {
        return Err(TruncatedLabel);
      }
      offset := offset + 1 + len;
    }
  }

  // ---- Parsing a response ----

  function SkipQuestions(packet: seq<Byte>, offset: nat, questions: nat): (r: Result<nat, DnsError>)
    ensures r.Ok? && (questions > 0 || offset <= |packet|) ==> r.value <= |packet|
    decreases questions
  {
    if questions == 0 then Ok(offset)
    else
      match SkipName(packet, offset)
      case Err(e) => Err(e)
      case Ok(next) => if next + 4 > |packet| then Err(TruncatedQuestion) else SkipQuestions(packet, next + 4, questions - 1)
  }

  /** The address in a resource record, if it is one of the kind asked for. */
  function AddressIn(rtype: U16, rclass: U16, rdata: seq<Byte>, qtype: U16): seq<Address> {
    if rclass == CLASS_IN && rtype == qtype && ((rtype == TYPE_A && |rdata| == 4) || (rtype == TYPE_AAAA && |rdata| == 16))
    then [rdata] else []
  }

  /** One resource record: the address it contributes, and where it ends. */
  function ParseRecord(packet: seq<Byte>, offset: nat, qtype: U16): Result<(seq<Address>, nat), DnsError>
  {
    match SkipName(packet, offset)
    case Err(e) => Err(e)
    case Ok(at) =>
      if at + 10 > |packet| then Err(TruncatedAnswer)
      else
        var rdlen := ReadU16(packet[at + 8..at + 10]);
        if at + 10 + rdlen > |packet| then Err(TruncatedRdata)
        else Ok((AddressIn(ReadU16(packet[at..at + 2]), ReadU16(packet[at + 2..at + 4]), packet[at + 10..at + 10 + rdlen], qtype),
                 at + 10 + rdlen))
  }

  function ParseAnswers(packet: seq<Byte>, offset: nat, answers: nat, qtype: U16): Result<seq<Address>, DnsError>
    decreases answers
  {
    if answers == 0 then Ok([])
    else
      match ParseRecord(packet, offset, qtype)
      case Err(e) => Err(e)
      case Ok((first, next)) =>
        match ParseAnswers(packet, next, answers - 1, qtype)
        case Err(e) => Err(e)
        case Ok(rest) => Ok(first + rest)
  }

  function ParseResponse(packet: seq<Byte>, expectedId: U16, qtype: U16): Result<seq<Address>, DnsError> {
    if |packet| < 12 then Err(ShortResponse)
    else if ReadU16(packet[0..2]) != expectedId then Err(MismatchedId)
    else if ReadU16(packet[2..4]) % 16 != 0 then Err(ResponseError)
    else
      match SkipQuestions(packet, 12, ReadU16(packet[4..6]))
      case Err(e) => Err(e)
      case Ok(offset) => ParseAnswers(packet, offset, ReadU16(packet[6..8]), qtype)
  }

  /** Every index into the packet is in range, whatever the bytes. */
  method ParseDnsResponse(packet: seq<Byte>, expectedId: U16, qtype: U16) returns (r: Result<seq<Address>, DnsError>)
    ensures r == ParseResponse(packet, expectedId, qtype)
  {
    if |packet| < 12 {
      return Err(ShortResponse);
    }
    if ReadU16(packet[0..2]) != expectedId {
      return Err(MismatchedId);
    }
    if ReadU16(packet[2..4]) % 16 != 0 {
      return Err(ResponseError);
    }
    var questions, answers := ReadU16(packet[4..6]), ReadU16(packet[6..8]);
    var offset: nat := 12;
    for i := 0 to questions
      invariant offset <= |packet|
      invariant SkipQuestions(packet, 12, questions) == SkipQuestions(packet, offset, questions - i)
    {
      var skipped := SkipDnsName(packet, offset);
      if skipped.Err? {
        return Err(skipped.error);
      }
      offset := skipped.value + 4;
      if offset > |packet| {
        return Err(TruncatedQuestion);
      }
    }
    r := ReadAnswers(packet, offset, answers, qtype);
  }

  method ReadAnswers(packet: seq<Byte>, start: nat, answers: nat, qtype: U16) returns (r: Result<seq<Address>, DnsError>)
    ensures r == ParseAnswers(packet, start, answers, qtype)
  {
    hide ParseRecord;
    var offset: nat := start;
    var addrs: seq<Address> := [];
    ghost var all := ParseAnswers(packet, start, answers, qtype);
    assert all.Ok? ==> [] + all.value == all.value;
    for i := 0 to answers
      invariant var more := ParseAnswers(packet, offset, answers - i, qtype);
                all == if more.Ok? then Ok(addrs + more.value) else more
    {
      var one := ReadRecord(packet, offset, qtype);
      if one.Err? {
        return Err(one.error);
      }
      ghost var more := ParseAnswers(packet, one.value.1, answers - i - 1, qtype);
      if more.Ok? {
        AppendAssociates(addrs, one.value.0, more.value);
      }
      addrs := addrs + one.value.0;
      offset := one.value.1;
    }
    assert addrs + [] == addrs;
    return Ok(addrs);
  }

  method ReadRecord(packet: seq<Byte>, start: nat, qtype: U16) returns (r: Result<(seq<Address>, nat), DnsError>)
    ensures r == ParseRecord(packet, start, qtype)
  {
    hide SkipName, FromBe;
    var skipped := SkipDnsName(packet, start);
    if skipped.Err? {
      return Err(skipped.error);
    }
    var offset := skipped.value;
    if offset + 10 > |packet| {
      return Err(TruncatedAnswer);
    }
    var rtype, rclass := ReadU16(packet[offset..offset + 2]), ReadU16(packet[offset + 2..offset + 4]);
    var rdlen := ReadU16(packet[offset + 8..offset + 10]);
    offset := offset + 10;
    if offset + rdlen > |packet| {
      return Err(TruncatedRdata);
    }
    var rdata := packet[offset..offset + rdlen];
    var addrs: seq<Address> := [];
    if rclass == CLASS_IN && rtype == qtype {
      if rtype == 1 && rdlen == 4 {
        addrs := [rdata];
      } else if rtype == 28 && rdlen == 16 {
        addrs := [rdata];
      }
    }
    return Ok((addrs, offset + rdlen));
  }

  // ---- Well-formed messages ----

  datatype NameEnd = Root | Pointer(high: Byte, low: Byte)

  /** A name: labels, then the root or a compression pointer. */
  datatype Name = Name(labels: seq<seq<Byte>>, end: NameEnd)
  {
    predicate Valid() {
      && Skippable(labels)
      && (end.Pointer? ==> end.high >= 0xC0)
    }
  }

  function EndBytes(end: NameEnd): seq<Byte> {
    match end
    case Root => [0]
    case Pointer(high, low) => [high, low]
  }

  function NameBytes(name: Name): seq<Byte>
    requires name.Valid()
  {
    LabelsBytes(name.labels) + EndBytes(name.end)
  }

  datatype Question = Question(name: Name, tail: seq<Byte>)
  {
    predicate Valid() {
      name.Valid() && |tail| == 4
    }
  }

  datatype Record = Record(name: Name, rtype: U16, rclass: U16, ttl: seq<Byte>, rdata: seq<Byte>)
  {
    predicate Valid() {
      name.Valid() && |ttl| == 4 && |rdata| <= 0xFFFF
    }
  }

  function QuestionBytes(q: Question): seq<Byte>
    requires q.Valid()
  {
    NameBytes(q.name) + q.tail
  }

  function RecordBytes(r: Record): seq<Byte>
    requires r.Valid()
  {
    NameBytes(r.name) + (ToBe(r.rtype, 2) + (ToBe(r.rclass, 2) + (r.ttl + (ToBe(|r.rdata|, 2) + r.rdata))))
  }

  function QuestionsBytes(qs: seq<Question>): seq<Byte>
    requires forall k | 0 <= k < |qs| :: qs[k].Valid()
  {
    if qs == [] then [] else QuestionBytes(qs[0]) + QuestionsBytes(qs[1..])
  }

  function RecordsBytes(rs: seq<Record>): seq<Byte>
    requires forall k | 0 <= k < |rs| :: rs[k].Valid()
  {
    if rs == [] then [] else RecordBytes(rs[0]) + RecordsBytes(rs[1..])
  }

  /** The addresses asked for, in the order of the records: four bytes of an Internet
      record of type 1, sixteen of one of type 28. */
  function Wanted(rs: seq<Record>, qtype: U16): seq<Address> {
    if rs == [] then []
    else if rs[0].rclass == 1 && rs[0].rtype == qtype && ((qtype == 1 && |rs[0].rdata| == 4) || (qtype == 28 && |rs[0].rdata| == 16))
    then [rs[0].rdata] + Wanted(rs[1..], qtype)
    else Wanted(rs[1..], qtype)
  }

  /** The packet has these bytes at this offset. */
  predicate At(packet: seq<Byte>, offset: nat, bytes: seq<Byte>) {
    offset + |bytes| <= |packet| && packet[offset..offset + |bytes|] == bytes
  }

  lemma AtSplit(packet: seq<Byte>, offset: nat, a: seq<Byte>, b: seq<Byte>)
    requires At(packet, offset, a + b)
    ensures At(packet, offset, a) && At(packet, offset + |a|, b)
  {
    var all := packet[offset..offset + |a + b|];
    assert packet[offset..offset + |a|] == all[..|a|] == a;
    assert packet[offset + |a|..offset + |a| + |b|] == all[|a|..] == b;
  }

  lemma AtIndex(packet: seq<Byte>, offset: nat, bytes: seq<Byte>, k: nat)
    requires At(packet, offset, bytes) && k < |bytes|
    ensures packet[offset + k] == bytes[k]
  {
  }

  lemma {:induction false} SkipsLabels(packet: seq<Byte>, offset: nat, labels: seq<seq<Byte>>)
    requires Skippable(labels)
    requires At(packet, offset, LabelsBytes(labels))
    ensures SkipName(packet, offset) == SkipName(packet, offset + |LabelsBytes(labels)|)
    decreases |labels|
  {
    if labels != [] {
      var first, rest := LabelBytes(labels[0]), LabelsBytes(labels[1..]);
      AtSplit(packet, offset, first, rest);
      AtIndex(packet, offset, first, 0);
      SkipsLabels(packet, offset + |first|, labels[1..]);
    }
  }

  /** Skipping a name lands right behind it. */
  lemma SkipsName(packet: seq<Byte>, offset: nat, name: Name)
    requires name.Valid() && At(packet, offset, NameBytes(name))
    ensures SkipName(packet, offset) == Ok(offset + |NameBytes(name)|)
  {
    hide LabelsBytes, SkipName;
    AtSplit(packet, offset, LabelsBytes(name.labels), EndBytes(name.end));
    SkipsLabels(packet, offset, name.labels);
    SkipsEnd(packet, offset + |LabelsBytes(name.labels)|, name.end);
  }

  lemma SkipsEnd(packet: seq<Byte>, offset: nat, end: NameEnd)
    requires (end.Pointer? ==> end.high >= 0xC0) && At(packet, offset, EndBytes(end))
    ensures SkipName(packet, offset) == Ok(offset + |EndBytes(end)|)
  {
  }

  /** In the query for an acceptable host, skipping the question name lands
      exactly on the last four bytes, the type and class. */
  lemma QueryNameIsSkipped(id: U16, host: seq<Byte>, qtype: U16)
    requires Acceptable(host)
    ensures var query := QueryBytes(id, Labels(host), qtype); SkipName(query, 12) == Ok(|query| - 4)
  {
    var query := QueryBytes(id, Labels(host), qtype);
    var header, name := HeaderBytes(id, 0x0100, 1, 0, [0, 0, 0, 0]), Name(Labels(host), Root);
    assert query == header + (NameBytes(name) + QuestionTail(qtype)) by {
      AppendAssociates(header, NameBytes(name), QuestionTail(qtype));
    }
    assert query[0..0 + |query|] == query;
    AtSplit(query, 0, header, NameBytes(name) + QuestionTail(qtype));
    AtSplit(query, 12, NameBytes(name), QuestionTail(qtype));
    SkipsName(query, 12, name);
  }

  lemma {:induction false} SkipsQuestions(packet: seq<Byte>, offset: nat, qs: seq<Question>)
    requires forall k | 0 <= k < |qs| :: qs[k].Valid()
    requires At(packet, offset, QuestionsBytes(qs))
    ensures SkipQuestions(packet, offset, |qs|) == Ok(offset + |QuestionsBytes(qs)|)
    decreases |qs|
  {
    hide SkipName, NameBytes;
    if qs != [] {
      AtSplit(packet, offset, QuestionBytes(qs[0]), QuestionsBytes(qs[1..]));
      AtSplit(packet, offset, NameBytes(qs[0].name), qs[0].tail);
      SkipsName(packet, offset, qs[0].name);
      SkipsQuestions(packet, offset + |QuestionBytes(qs[0])|, qs[1..]);
    }
  }

  /** The fields behind a record's name. */
  lemma RecordFields(packet: seq<Byte>, at: nat, r: Record)
    requires r.Valid()
    requires At(packet, at, ToBe(r.rtype, 2) + (ToBe(r.rclass, 2) + (r.ttl + (ToBe(|r.rdata|, 2) + r.rdata))))
    ensures at + 10 + |r.rdata| <= |packet|
    ensures ReadU16(packet[at..at + 2]) == r.rtype && ReadU16(packet[at + 2..at + 4]) == r.rclass
    ensures ReadU16(packet[at + 8..at + 10]) == |r.rdata|
    ensures packet[at + 10..at + 10 + |r.rdata|] == r.rdata
  {
    AtSplit(packet, at, ToBe(r.rtype, 2), ToBe(r.rclass, 2) + (r.ttl + (ToBe(|r.rdata|, 2) + r.rdata)));
    AtSplit(packet, at + 2, ToBe(r.rclass, 2), r.ttl + (ToBe(|r.rdata|, 2) + r.rdata));
    AtSplit(packet, at + 4, r.ttl, ToBe(|r.rdata|, 2) + r.rdata);
    AtSplit(packet, at + 8, ToBe(|r.rdata|, 2), r.rdata);
    PowersOf256();
    FromBeToBe(r.rtype, 2);
    FromBeToBe(r.rclass, 2);
    FromBeToBe(|r.rdata|, 2);
  }

  lemma ParsesRecord(packet: seq<Byte>, offset: nat, r: Record, qtype: U16)
    requires r.Valid() && At(packet, offset, RecordBytes(r))
    ensures ParseRecord(packet, offset, qtype) == Ok((AddressIn(r.rtype, r.rclass, r.rdata, qtype), offset + |RecordBytes(r)|))
  {
    hide SkipName, NameBytes, FromBe, ToBe, AddressIn;
    var name := NameBytes(r.name);
    AtSplit(packet, offset, name, ToBe(r.rtype, 2) + (ToBe(r.rclass, 2) + (r.ttl + (ToBe(|r.rdata|, 2) + r.rdata))));
    SkipsName(packet, offset, r.name);
    RecordFields(packet, offset + |name|, r);
    assert |RecordBytes(r)| == |name| + 10 + |r.rdata|;
  }

  lemma {:induction false} ParsesRecords(packet: seq<Byte>, offset: nat, rs: seq<Record>, qtype: U16)
    requires forall k | 0 <= k < |rs| :: rs[k].Valid()
    requires At(packet, offset, RecordsBytes(rs))
    ensures ParseAnswers(packet, offset, |rs|, qtype) == Ok(Wanted(rs, qtype))
    decreases |rs|
  {
    hide ParseRecord, RecordBytes, At;
    if rs != [] {
      AtSplit(packet, offset, RecordBytes(rs[0]), RecordsBytes(rs[1..]));
      ParsesRecord(packet, offset, rs[0], qtype);
      ParsesRecords(packet, offset + |RecordBytes(rs[0])|, rs[1..], qtype);
      assert [] + Wanted(rs[1..], qtype) == Wanted(rs[1..], qtype);
    }
  }

  function ReplyBytes(id: U16, flags: U16, others: seq<Byte>, qs: seq<Question>, rs: seq<Record>, more: seq<Byte>): seq<Byte>
    requires |others| == 4 && (forall k | 0 <= k < |qs| :: qs[k].Valid()) && (forall k | 0 <= k < |rs| :: rs[k].Valid())
  {
    HeaderBytes(id, flags, |qs|, |rs|, others) + (QuestionsBytes(qs) + (RecordsBytes(rs) + more))
  }

  lemma HeaderFields(id: U16, flags: U16, questions: U16, answers: U16, others: seq<Byte>, rest: seq<Byte>)
    requires |others| == 4
    ensures var p := HeaderBytes(id, flags, questions, answers, others) + rest;
            && ReadU16(p[0..2]) == id && ReadU16(p[2..4]) == flags
            && ReadU16(p[4..6]) == questions && ReadU16(p[6..8]) == answers
  {
    var p := HeaderBytes(id, flags, questions, answers, others) + rest;
    assert p[0..2] == ToBe(id, 2) && p[2..4] == ToBe(flags, 2);
    assert p[4..6] == ToBe(questions, 2) && p[6..8] == ToBe(answers, 2);
    PowersOf256();
    FromBeToBe(id, 2);
    FromBeToBe(flags, 2);
    FromBeToBe(questions, 2);
    FromBeToBe(answers, 2);
  }

  /** A reply with the expected id and no error, any questions, any records with
      plain or compressed names, and anything behind them, parses to exactly the
      internet-class records of the type asked for that carry an address, in order. */
  lemma ReplyParses(id: U16, flags: U16, others: seq<Byte>, qs: seq<Question>, rs: seq<Record>, more: seq<Byte>, qtype: U16)
    requires |others| == 4 && |qs| <= 0xFFFF && |rs| <= 0xFFFF && flags % 16 == 0
    requires forall k | 0 <= k < |qs| :: qs[k].Valid()
    requires forall k | 0 <= k < |rs| :: rs[k].Valid()
    ensures ParseResponse(ReplyBytes(id, flags, others, qs, rs, more), id, qtype) == Ok(Wanted(rs, qtype))
  {
    hide SkipName, ParseAnswers, SkipQuestions, Wanted, HeaderBytes, QuestionsBytes, RecordsBytes, FromBe;
    var packet := ReplyBytes(id, flags, others, qs, rs, more);
    var header := HeaderBytes(id, flags, |qs|, |rs|, others);
    var rest := RecordsBytes(rs) + more;
    HeaderFields(id, flags, |qs|, |rs|, others, QuestionsBytes(qs) + rest);
    assert packet[0..0 + |packet|] == packet;
    AtSplit(packet, 0, header, QuestionsBytes(qs) + rest);
    AtSplit(packet, 12, QuestionsBytes(qs), rest);
    AtSplit(packet, 12 + |QuestionsBytes(qs)|, RecordsBytes(rs), more);
    SkipsQuestions(packet, 12, qs);
    ParsesRecords(packet, 12 + |QuestionsBytes(qs)|, rs, qtype);
  }

  /** A packet without a whole header, with another id or with an error code is
      refused. */
  lemma ForeignReplyRefused(packet: seq<Byte>, expectedId: U16, qtype: U16)
    ensures |packet| < 12 ==> ParseResponse(packet, expectedId, qtype) == Err(ShortResponse)
    ensures |packet| >= 12 && packet[0..2] != ToBe(expectedId, 2) ==> ParseResponse(packet, expectedId, qtype) == Err(MismatchedId)
    ensures |packet| >= 12 && packet[0..2] == ToBe(expectedId, 2) && packet[3] % 16 != 0 ==>
              ParseResponse(packet, expectedId, qtype) == Err(ResponseError)
  {
    hide SkipQuestions, ParseAnswers;
    if |packet| >= 12 {
      ToBeFromBe(packet[0..2]);
      PowersOf256();
      FromBeToBe(expectedId, 2);
      assert FromBe(packet[2..4]) == FromBe(packet[2..4][..1]) * 256 + packet[3];
    }
  }

  // ---- Only replies parse ----

  lemma AtJoin(packet: seq<Byte>, offset: nat, a: seq<Byte>, b: seq<Byte>)
    requires At(packet, offset, a) && At(packet, offset + |a|, b)
    ensures At(packet, offset, a + b)
  {
    assert packet[offset..offset + |a| + |b|] == packet[offset..offset + |a|] + packet[offset + |a|..offset + |a| + |b|];
  }

  /** What is skipped is a name. */
  lemma {:induction false} SkippedIsName(packet: seq<Byte>, offset: nat) returns (name: Name)
    requires SkipName(packet, offset).Ok?
    ensures name.Valid() && At(packet, offset, NameBytes(name))
    ensures SkipName(packet, offset).value == offset + |NameBytes(name)|
    decreases |packet| - offset
  {
    var len := packet[offset];
    if len == 0 || len >= 0xC0 {
      name := Name([], if len == 0 then Root else Pointer(len, packet[offset + 1]));
      assert NameBytes(name) == EndBytes(name.end);
    } else {
      hide LabelsBytes, NameBytes, At;
      var piece := packet[offset + 1..offset + 1 + len];
      var rest := SkippedIsName(packet, offset + 1 + len);
      name := LabelAhead(packet, offset, piece, rest);
    }
  }

  lemma LabelAhead(packet: seq<Byte>, offset: nat, piece: seq<Byte>, rest: Name) returns (name: Name)
    requires 1 <= |piece| < 0xC0 && rest.Valid() && offset + 1 + |piece| <= |packet|
    requires packet[offset] == |piece| && packet[offset + 1..offset + 1 + |piece|] == piece
    requires At(packet, offset + 1 + |piece|, NameBytes(rest))
    ensures name.Valid() && At(packet, offset, NameBytes(name)) && |NameBytes(name)| == 1 + |piece| + |NameBytes(rest)|
  {
    name := Name([piece] + rest.labels, rest.end);
    assert name.labels[1..] == rest.labels;
    assert At(packet, offset, LabelBytes(piece));
    AtJoin(packet, offset, LabelBytes(piece), NameBytes(rest));
    AppendAssociates(LabelBytes(piece), LabelsBytes(rest.labels), EndBytes(rest.end));
  }

  lemma {:induction false} SkippedAreQuestions(packet: seq<Byte>, offset: nat, n: nat) returns (qs: seq<Question>)
    requires offset <= |packet| && SkipQuestions(packet, offset, n).Ok?
    ensures |qs| == n && (forall k | 0 <= k < |qs| :: qs[k].Valid()) && At(packet, offset, QuestionsBytes(qs))
    ensures SkipQuestions(packet, offset, n).value == offset + |QuestionsBytes(qs)|
    decreases n
  {
    hide SkipName, NameBytes;
    if n == 0 {
      qs := [];
    } else {
      var name := SkippedIsName(packet, offset);
      var at := offset + |NameBytes(name)|;
      var q := Question(name, packet[at..at + 4]);
      var rest := SkippedAreQuestions(packet, at + 4, n - 1);
      qs := [q] + rest;
      assert qs[1..] == rest;
      AtJoin(packet, offset, NameBytes(name), q.tail);
      AtJoin(packet, offset, QuestionBytes(q), QuestionsBytes(rest));
    }
  }

  /** The fields a record was read from. */
  lemma FieldsAreRecord(packet: seq<Byte>, at: nat, name: Name) returns (r: Record)
    requires name.Valid() && at + 10 <= |packet| && at + 10 + ReadU16(packet[at + 8..at + 10]) <= |packet|
    ensures r.Valid() && r.name == name && |r.rdata| == ReadU16(packet[at + 8..at + 10])
    ensures At(packet, at, ToBe(r.rtype, 2) + (ToBe(r.rclass, 2) + (r.ttl + (ToBe(|r.rdata|, 2) + r.rdata))))
  {
    hide ToBe, FromBe;
    var len := ReadU16(packet[at + 8..at + 10]);
    r := Record(name, ReadU16(packet[at..at + 2]), ReadU16(packet[at + 2..at + 4]), packet[at + 4..at + 8], packet[at + 10..at + 10 + len]);
    ToBeFromBe(packet[at..at + 2]);
    ToBeFromBe(packet[at + 2..at + 4]);
    ToBeFromBe(packet[at + 8..at + 10]);
    AtJoin(packet, at + 8, ToBe(|r.rdata|, 2), r.rdata);
    AtJoin(packet, at + 4, r.ttl, ToBe(|r.rdata|, 2) + r.rdata);
    AtJoin(packet, at + 2, ToBe(r.rclass, 2), r.ttl + (ToBe(|r.rdata|, 2) + r.rdata));
    AtJoin(packet, at, ToBe(r.rtype, 2), ToBe(r.rclass, 2) + (r.ttl + (ToBe(|r.rdata|, 2) + r.rdata)));
  }

  lemma ParsedIsRecord(packet: seq<Byte>, offset: nat, qtype: U16) returns (r: Record)
    requires ParseRecord(packet, offset, qtype).Ok?
    ensures r.Valid() && At(packet, offset, RecordBytes(r))
    ensures ParseRecord(packet, offset, qtype).value.1 == offset + |RecordBytes(r)|
  {
    hide SkipName, NameBytes, FromBe;
    var name := SkippedIsName(packet, offset);
    var at := offset + |NameBytes(name)|;
    r := FieldsAreRecord(packet, at, name);
    AtJoin(packet, offset, NameBytes(name), ToBe(r.rtype, 2) + (ToBe(r.rclass, 2) + (r.ttl + (ToBe(|r.rdata|, 2) + r.rdata))));
  }

  lemma {:induction false} ParsedAreRecords(packet: seq<Byte>, offset: nat, n: nat, qtype: U16) returns (rs: seq<Record>)
    requires offset <= |packet| && ParseAnswers(packet, offset, n, qtype).Ok?
    ensures |rs| == n && (forall k | 0 <= k < |rs| :: rs[k].Valid()) && At(packet, offset, RecordsBytes(rs))
    decreases n
  {
    hide ParseRecord, RecordBytes;
    if n == 0 {
      rs := [];
    } else {
      var r := ParsedIsRecord(packet, offset, qtype);
      var rest := ParsedAreRecords(packet, offset + |RecordBytes(r)|, n - 1, qtype);
      rs := [r] + rest;
      assert rs[1..] == rest;
      AtJoin(packet, offset, RecordBytes(r), RecordsBytes(rest));
    }
  }

  /** Whatever parses is a reply with the expected id and no error. */
  lemma ParsedIsReply(packet: seq<Byte>, id: U16, qtype: U16)
    returns (flags: U16, others: seq<Byte>, qs: seq<Question>, rs: seq<Record>, more: seq<Byte>)
    requires ParseResponse(packet, id, qtype).Ok?
    ensures |others| == 4 && |qs| <= 0xFFFF && |rs| <= 0xFFFF && flags % 16 == 0
    ensures (forall k | 0 <= k < |qs| :: qs[k].Valid()) && (forall k | 0 <= k < |rs| :: rs[k].Valid())
    ensures packet == ReplyBytes(id, flags, others, qs, rs, more)
  {
    hide SkipQuestions, ParseAnswers, QuestionsBytes, RecordsBytes, FromBe, ToBe;
    flags, others := ReadU16(packet[2..4]), packet[8..12];
    qs := SkippedAreQuestions(packet, 12, ReadU16(packet[4..6]));
    var offset := 12 + |QuestionsBytes(qs)|;
    rs := ParsedAreRecords(packet, offset, ReadU16(packet[6..8]), qtype);
    more := packet[offset + |RecordsBytes(rs)|..];
    ToBeFromBe(packet[0..2]);
    ToBeFromBe(packet[2..4]);
    ToBeFromBe(packet[4..6]);
    ToBeFromBe(packet[6..8]);
    assert packet[..12] == HeaderBytes(id, flags, |qs|, |rs|, others);
    assert packet[offset..] == RecordsBytes(rs) + more;
    assert packet[12..] == QuestionsBytes(qs) + (RecordsBytes(rs) + more);
  }

  /** The query carries the id, asks for recursion, and holds one question: the labels
      of the host, the type asked for and the Internet class. */
  lemma QueryReadsBack(id: U16, host: seq<Byte>, qtype: U16)
    requires Acceptable(host)
    ensures var query := QueryBytes(id, Labels(host), qtype);
            && query == ReplyBytes(id, 0x0100, [0, 0, 0, 0], [Question(Name(Labels(host), Root), ToBe(qtype, 2) + [0, 1])], [], [])
            && |query| >= 16 && query[..6] == ToBe(id, 2) + [1, 0, 0, 1] && query[6..12] == [0, 0, 0, 0, 0, 0]
            && query[|query| - 4..] == ToBe(qtype, 2) + [0, 1]
  {
    hide ToBe, LabelsBytes, HeaderBytes;
    var q := Question(Name(Labels(host), Root), ToBe(qtype, 2) + [0, 1]);
    var header, query := HeaderBytes(id, 0x0100, 1, 0, [0, 0, 0, 0]), QueryBytes(id, Labels(host), qtype);
    QueryHeader(id);
    assert [q][1..] == [] && QuestionsBytes([q]) == QuestionBytes(q) + [];
    AppendAssociates(header, NameBytes(q.name), q.tail);
    assert query == header + (QuestionsBytes([q]) + (RecordsBytes([]) + []));
  }

  lemma QueryHeader(id: U16)
    ensures HeaderBytes(id, 0x0100, 1, 0, [0, 0, 0, 0]) == ToBe(id, 2) + [1, 0, 0, 1] + [0, 0, 0, 0, 0, 0]
    ensures ToBe(1, 2) == [0, 1]
  {
    hide ToBe;
    TwoBytes(0x0100);
    TwoBytes(1);
    TwoBytes(0);
  }
}
