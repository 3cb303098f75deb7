/** The embedded DNS server's question parser, reply selection and answer builders. */
module DnsWire {
  import opened Common
  import NetworkModel
  import NetworkProofs

  const HEADER: nat := 12
  const DOT: Byte := 46
  const TYPE_A: nat := 1
  const TYPE_AAAA: nat := 28

  // --- the parser -------------------------------------------------------------------

  /** The byte at `i`, or zero past the end. */
  function At(q: Bytes, i: nat): Byte {
    if i < |q| then q[i] else 0
  }

  datatype Scan = Malformed | Labels(labels: seq<Bytes>, end: nat)

  /** The labels from `i` on, up to the terminator; two top bits mean a pointer, which no question has. */
  function ScanLabels(q: Bytes, i: nat): (r: Scan)
    ensures r.Labels? ==> i <= r.end
    decreases |q| - i
  {
    var len := At(q, i) as nat;
    if len == 0 then Labels([], i)
    else if len >= 64 || i + 1 + len > |q| then Malformed
    else
      var r := ScanLabels(q, i + 1 + len);
      if r.Malformed? then r else Labels([q[i + 1..i + 1 + len]] + r.labels, r.end)
  }

  function Lower(b: Bytes): Bytes {
    seq(|b|, i requires 0 <= i < |b| => if 65 <= b[i] <= 90 then b[i] + 32 else b[i])
  }

  function Join(labels: seq<Bytes>): Bytes {
    if labels == [] then []
    else if |labels| == 1 then labels[0]
    else labels[0] + [DOT] + Join(labels[1..])
  }

  /** The question type after the terminator; A when it is cut off. */
  function QType(q: Bytes, end: nat): nat {
    if end + 2 < |q| then q[end + 1] as nat * 256 + q[end + 2] as nat else TYPE_A
  }

  /** How a label is read as text; what is not UTF-8 in it is substituted. */
  type Lossy = Bytes -> Bytes

  function Decoded(labels: seq<Bytes>, lossy: Lossy): seq<Bytes> {
    seq(|labels|, i requires 0 <= i < |labels| => lossy(labels[i]))
  }

  function Parse(q: Bytes, lossy: Lossy): (Option<Bytes>, nat) {
    if |q| < HEADER then (None, TYPE_A)
    else
      var s := ScanLabels(q, HEADER);
      if s.Malformed? then (None, TYPE_A) else (NameOf(Decoded(s.labels, lossy)), QType(q, s.end))
  }

  function NameOf(labels: seq<Bytes>): Option<Bytes> {
    if labels == [] then None else Some(Lower(Join(labels)))
  }

  /** The source's loop; every access is in bounds and it ends on every input. */
  method ExtractQueryNameType(q: Bytes, lossy: Lossy) returns (name: Option<Bytes>, qtype: nat)
    ensures (name, qtype) == Parse(q, lossy)
  {
    if |q| < HEADER {
      return None, TYPE_A;
    }
    var i, labels := HEADER, [];
    while At(q, i) != 0
      invariant HEADER <= i
      invariant Scanning(ScanLabels(q, HEADER), labels, ScanLabels(q, i), lossy)
      decreases |q| - i
    {
      var len := At(q, i) as nat;
      if len >= 64 || i + 1 + len > |q| {
        return None, TYPE_A;
      }
      var part := q[i + 1..i + 1 + len];
      ScanningStep(q, i, labels, lossy);
      labels := labels + [lossy(part)];
      i := i + 1 + len;
    }
    assert labels + Decoded([], lossy) == labels;
    name := NameOf(labels);
    qtype := QType(q, i);
  }

  /** What is left to scan, behind the labels read so far, makes up the whole name. */
  ghost predicate Scanning(whole: Scan, labels: seq<Bytes>, left: Scan, lossy: Lossy) {
    if left.Malformed? then whole.Malformed?
    else whole.Labels? && whole.end == left.end && Decoded(whole.labels, lossy) == labels + Decoded(left.labels, lossy)
  }

  lemma ScanningStep(q: Bytes, i: nat, labels: seq<Bytes>, lossy: Lossy)
    requires 0 < At(q, i) as nat < 64 && i + 1 + At(q, i) as nat <= |q|
    requires Scanning(ScanLabels(q, HEADER), labels, ScanLabels(q, i), lossy)
    ensures var next := i + 1 + At(q, i) as nat;
            Scanning(ScanLabels(q, HEADER), labels + [lossy(q[i + 1..next])], ScanLabels(q, next), lossy)
  {
    var next := i + 1 + At(q, i) as nat;
    var left := ScanLabels(q, next);
    if left.Labels? { DecodedCons(q[i + 1..next], left.labels, lossy); }
  }

  lemma DecodedCons(l: Bytes, rest: seq<Bytes>, lossy: Lossy)
    ensures Decoded([l] + rest, lossy) == [lossy(l)] + Decoded(rest, lossy)
  {
  }

  // --- the encoding it inverts -----------------------------------------------------------

  /** Labels as section 4.1.2 of RFC 1035 has them: 1 to 63 octets each. */
  ghost predicate Encodable(labels: seq<Bytes>) {
    forall l :: l in labels ==> 1 <= |l| <= 63
  }

  function EncodeName(labels: seq<Bytes>): Bytes
    requires Encodable(labels)
  {
    if labels == [] then [0] else [|labels[0]| as Byte] + labels[0] + EncodeName(labels[1..])
  }

  lemma ScanStep(q: Bytes, i: nat, l: Bytes)
    requires 1 <= |l| <= 63 && i + 1 + |l| <= |q| && q[i] == |l| as Byte && q[i + 1..i + 1 + |l|] == l
    ensures var r := ScanLabels(q, i + 1 + |l|);
            ScanLabels(q, i) == if r.Malformed? then r else Labels([l] + r.labels, r.end)
  {
  }

  /** `part` stands at position `i` of `q`. */
  ghost predicate Holds(q: Bytes, i: nat, part: Bytes) {
    i + |part| <= |q| && forall k :: 0 <= k < |part| ==> q[i + k] == part[k]
  }

  lemma HoldsParts(q: Bytes, i: nat, a: Bytes, b: Bytes)
    requires Holds(q, i, a + b)
    ensures Holds(q, i, a) && Holds(q, i + |a|, b)
  {
    forall k | 0 <= k < |a| ensures q[i + k] == a[k] { assert (a + b)[k] == a[k]; }
    forall k | 0 <= k < |b| ensures q[i + |a| + k] == b[k] { assert (a + b)[|a| + k] == b[k]; }
  }

  lemma HoldsSlice(q: Bytes, i: nat, a: Bytes)
    requires Holds(q, i, a)
    ensures i + |a| <= |q| && q[i..i + |a|] == a
  {
  }

  lemma HoldsFirst(q: Bytes, i: nat, a: Bytes)
    requires Holds(q, i, a) && a != []
    ensures i < |q| && q[i] == a[0]
  {
    assert q[i + 0] == a[0];
  }

  /** The length octet and the label at the head of an encoded name. */
  lemma HeadAt(q: Bytes, i: nat, l: Bytes, rest: Bytes)
    requires 1 <= |l| <= 63 && Holds(q, i, [|l| as Byte] + l + rest)
    ensures i + 1 + |l| <= |q| && q[i] == |l| as Byte && q[i + 1..i + 1 + |l|] == l
    ensures Holds(q, i + 1 + |l|, rest)
  {
    HoldsParts(q, i, [|l| as Byte] + l, rest);
    HoldsParts(q, i, [|l| as Byte], l);
    HoldsFirst(q, i, [|l| as Byte]);
    HoldsSlice(q, i + 1, l);
  }

  lemma {:induction false} ScanAt(q: Bytes, i: nat, labels: seq<Bytes>)
    requires Encodable(labels) && Holds(q, i, EncodeName(labels))
    ensures ScanLabels(q, i) == Labels(labels, i + |EncodeName(labels)| - 1)
    decreases |labels|
  {
    if labels == [] {
      HoldsFirst(q, i, [0]);
    } else {
      var l := labels[0];
      HeadAt(q, i, l, EncodeName(labels[1..]));
      ScanAt(q, i + 1 + |l|, labels[1..]);
      ScanStep(q, i, l);
      assert [l] + labels[1..] == labels;
    }
  }

  /** Scanning an encoded name gives its labels back and stops at its terminator. */
  lemma ScanEncoded(before: Bytes, labels: seq<Bytes>, rest: Bytes)
    requires Encodable(labels)
    ensures ScanLabels(before + EncodeName(labels) + rest, |before|)
            == Labels(labels, |before| + |EncodeName(labels)| - 1)
  {
    var q := before + EncodeName(labels) + rest;
    assert Holds(q, |before|, EncodeName(labels));
    ScanAt(q, |before|, labels);
  }

  ghost predicate Ascii(b: Bytes) {
    forall x :: x in b ==> x < 128
  }

  /** Reading as text leaves ASCII alone. */
  ghost predicate KeepsAscii(lossy: Lossy) {
    forall b :: Ascii(b) ==> lossy(b) == b
  }

  lemma DecodedAscii(labels: seq<Bytes>, lossy: Lossy)
    requires KeepsAscii(lossy) && forall l :: l in labels ==> Ascii(l)
    ensures Decoded(labels, lossy) == labels
  {
  }

  /** A scanned name with its type behind it. */
  lemma {:induction false} ParseScanned(q: Bytes, labels: seq<Bytes>, end: nat, qtype: nat, lossy: Lossy)
    requires |q| >= HEADER && ScanLabels(q, HEADER) == Labels(labels, end) && QType(q, end) == qtype
    ensures Parse(q, lossy) == (NameOf(Decoded(labels, lossy)), qtype)
  {
  }

  /** The parser inverts the encoding: the lower-cased, dot-joined labels and the type, whatever follows. */
  lemma ParseEncoded(header: Bytes, labels: seq<Bytes>, hi: Byte, lo: Byte, rest: Bytes,
                     lossy: Lossy)
    requires |header| == HEADER && Encodable(labels)
    ensures var r := Parse(header + EncodeName(labels) + ([hi, lo] + rest), lossy);
            && r == Asked(Decoded(labels, lossy), hi, lo)
            && (KeepsAscii(lossy) && (forall l :: l in labels ==> Ascii(l)) ==> r == Asked(labels, hi, lo))
  {
    var front := header + EncodeName(labels);
    ScanEncoded(header, labels, [hi, lo] + rest);
    TypeAfter(front, hi, lo, rest);
    ParseScanned(front + ([hi, lo] + rest), labels, |front| - 1, hi as nat * 256 + lo as nat, lossy);
    if KeepsAscii(lossy) && forall l :: l in labels ==> Ascii(l) { DecodedAscii(labels, lossy); }
  }

  /** What an encoded question asks for. */
  function Asked(labels: seq<Bytes>, hi: Byte, lo: Byte): (Option<Bytes>, nat) {
    (NameOf(labels), hi as nat * 256 + lo as nat)
  }

  lemma TypeAfter(front: Bytes, hi: Byte, lo: Byte, rest: Bytes)
    requires front != []
    ensures QType(front + ([hi, lo] + rest), |front| - 1) == hi as nat * 256 + lo as nat
  {
    var q := front + ([hi, lo] + rest);
    assert q[|front|] == hi && q[|front| + 1] == lo;
  }

  // --- replies ----------------------------------------------------------------------------

  function WithTopBit(b: Byte): Byte {
    if b >= 128 then b else b + 128
  }

  /** The header and question of an answer, its record cut off. */
  function AnswerFront(q: Bytes): Bytes
    requires |q| >= HEADER
  {
    q[2 := WithTopBit(q[2])][3 := WithTopBit(q[3])][7 := 1]
  }

  /** The common part of both answers: response bits, one answer, then the record. */
  function Answer(q: Bytes, record: Bytes): Bytes {
    if |q| < HEADER then q
    else AnswerFront(q) + record
  }

  /** A pointer to the question's name, TYPE, CLASS IN, TTL 0 and the address. */
  function RecordOf(qtype: Byte, address: Bytes): Bytes
    requires |address| < 256
  {
    [0xC0, 0x0C, 0, qtype, 0, 1, 0, 0, 0, 0, 0, |address| as Byte] + address
  }

  function BuildAnswer(q: Bytes, octets: Bytes): Bytes
    requires |octets| == 4
  {
    Answer(q, RecordOf(1, octets))
  }

  function BuildAaaaAnswer(q: Bytes, octets: Bytes): Bytes
    requires |octets| == 16
  {
    Answer(q, RecordOf(28, octets))
  }

  /** A header-only reply: QR, RA and the response code. */
  function BuildError(q: Bytes, rcode: Byte): Bytes {
    if |q| < HEADER then q
    else
      var kept := q[3] / 16 * 16;
      q[2 := WithTopBit(q[2])][3 := WithTopBit(kept) + rcode % 16]
  }

  /** Both answer builders: the query's bytes, patched and extended. */
  method PatchAnswer(q: Bytes, record: Bytes) returns (out: Bytes)
    ensures out == Answer(q, record)
  {
    out := q;
    if |out| < HEADER {
      return;
    }
    out := out[2 := WithTopBit(out[2])];
    out := out[3 := WithTopBit(out[3])];
    out := out[7 := 1];
    out := out + record;
  }

  method PatchError(q: Bytes, rcode: Byte) returns (out: Bytes)
    ensures out == BuildError(q, rcode)
  {
    out := q;
    if |out| < HEADER {
      return;
    }
    out := out[2 := WithTopBit(out[2])];
    out := out[3 := WithTopBit(out[3] / 16 * 16) + rcode % 16];
  }

  /** The question is all there: its labels, their terminator and the type. */
  predicate QuestionComplete(q: Bytes) {
    |q| >= HEADER && ScanLabels(q, HEADER).Labels? && ScanLabels(q, HEADER).end + 2 < |q|
  }

  /** Scanning looks only at bytes from its start on, and never past a complete question. */
  lemma {:induction false} ScanSame(q: Bytes, r: Bytes, i: nat)
    requires |q| <= |r| && forall k :: i <= k < |q| ==> r[k] == q[k]
    requires ScanLabels(q, i).Labels? && ScanLabels(q, i).end < |q|
    ensures ScanLabels(r, i) == ScanLabels(q, i)
    decreases |q| - i
  {
    var len := At(q, i) as nat;
    if len != 0 {
      assert r[i + 1..i + 1 + len] == q[i + 1..i + 1 + len];
      ScanSame(q, r, i + 1 + len);
    }
  }

  /** An answer to a complete question asks the same question. */
  lemma AnswerKeepsQuestion(q: Bytes, record: Bytes, lossy: Lossy)
    requires QuestionComplete(q)
    ensures Parse(Answer(q, record), lossy) == Parse(q, lossy)
  {
    var r := Answer(q, record);
    assert forall k :: HEADER <= k < |q| ==> r[k] == q[k];
    ScanSame(q, r, HEADER);
  }

  /** An error reply parses as its query does, whatever the query. */
  lemma ErrorKeepsQuestion(q: Bytes, rcode: Byte, lossy: Lossy)
    ensures Parse(BuildError(q, rcode), lossy) == Parse(q, lossy)
  {
    if |q| >= HEADER { ScanHeaderBlind(q, BuildError(q, rcode), HEADER); }
  }

  lemma {:induction false} ScanHeaderBlind(q: Bytes, r: Bytes, i: nat)
    requires |q| == |r| && i >= HEADER && forall k :: HEADER <= k < |q| ==> r[k] == q[k]
    ensures ScanLabels(r, i) == ScanLabels(q, i)
    decreases |q| - i
  {
    var len := At(q, i) as nat;
    if 0 < len < 64 && i + 1 + len <= |q| {
      assert r[i + 1..i + 1 + len] == q[i + 1..i + 1 + len];
      ScanHeaderBlind(q, r, i + 1 + len);
    }
  }

  /** A header-plus-question query: its A and AAAA replies parse as it does, to the name and type asked for. */
  lemma ReplyReparses(header: Bytes, labels: seq<Bytes>, hi: Byte, lo: Byte, tail: Bytes,
                      a: Bytes, aaaa: Bytes, lossy: Lossy)
    requires |header| == HEADER && Encodable(labels) && |a| == 4 && |aaaa| == 16
    ensures var q := header + EncodeName(labels) + ([hi, lo] + tail);
            var asked := Asked(Decoded(labels, lossy), hi, lo);
            Parse(BuildAnswer(q, a), lossy) == asked && Parse(BuildAaaaAnswer(q, aaaa), lossy) == asked
  {
    var q := header + EncodeName(labels) + ([hi, lo] + tail);
    ScanEncoded(header, labels, [hi, lo] + tail);
    ParseEncoded(header, labels, hi, lo, tail, lossy);
    AnswerKeepsQuestion(q, RecordOf(1, a), lossy);
    AnswerKeepsQuestion(q, RecordOf(28, aaaa), lossy);
  }

  // --- what a client reads out of a reply -------------------------------------------------

  /** A resource record as section 4.1.3 of RFC 1035 lays it out. */
  datatype Resource = Resource(name: seq<Bytes>, rtype: nat, rclass: nat, ttl: nat, data: Bytes)

  function Word(b: Bytes, i: nat): nat
    requires i + 1 < |b|
  {
    b[i] as nat * 256 + b[i + 1] as nat
  }

  /** The part of a record that follows its name. */
  function ReadFixed(r: Bytes, name: seq<Bytes>, p: nat): Option<Resource> {
    if p + 10 > |r| || p + 10 + Word(r, p + 8) > |r| then None
    else Some(Resource(name, Word(r, p), Word(r, p + 2), Word(r, p + 4) * 65536 + Word(r, p + 6),
                       r[p + 10..p + 10 + Word(r, p + 8)]))
  }

  /** The record at `p`; its name is spelt out or points back to one that is. */
  function ReadRecord(r: Bytes, p: nat): Option<Resource> {
    if p + 1 >= |r| then None
    else if r[p] >= 192 then
      var s := ScanLabels(r, Word(r, p) - 0xC000);
      if s.Malformed? then None else ReadFixed(r, s.labels, p + 2)
    else
      var s := ScanLabels(r, p);
      if s.Malformed? then None else ReadFixed(r, s.labels, s.end + 1)
  }

  /** The first record after the question of a response that announces one. */
  function FirstAnswer(r: Bytes): Option<Resource> {
    if |r| < HEADER || r[2] < 128 || Word(r, 6) == 0 then None
    else
      var s := ScanLabels(r, HEADER);
      if s.Malformed? then None else ReadRecord(r, s.end + 5)
  }

  lemma FixedOf(front: Bytes, qtype: Byte, address: Bytes, name: seq<Bytes>)
    requires |address| < 256
    ensures ReadFixed(front + RecordOf(qtype, address), name, |front| + 2)
            == Some(Resource(name, qtype as nat, 1, 0, address))
  {
    var rec, r, n := RecordOf(qtype, address), front + RecordOf(qtype, address), |front|;
    assert forall k :: 0 <= k < 12 ==> r[n + k] == rec[k];
    assert Word(r, n + 2) == qtype as nat && Word(r, n + 4) == 1;
    assert Word(r, n + 6) == 0 && Word(r, n + 8) == 0 && Word(r, n + 10) == |address|;
    assert r[n + 12..n + 12 + |address|] == address;
  }

  /** The record of an answer points back to the name asked for. */
  lemma {:induction false} RecordRead(front: Bytes, qtype: Byte, address: Bytes, labels: seq<Bytes>, end: nat)
    requires |address| < 256
    requires ScanLabels(front + RecordOf(qtype, address), HEADER) == Labels(labels, end)
    ensures ReadRecord(front + RecordOf(qtype, address), |front|)
            == Some(Resource(labels, qtype as nat, 1, 0, address))
  {
    var r, n := front + RecordOf(qtype, address), |front|;
    assert r[n] == 0xC0 && r[n + 1] == 0x0C;
    assert Word(r, n) == 0xC00C;
    FixedOf(front, qtype, address, labels);
  }

  lemma AnswerScan(header: Bytes, labels: seq<Bytes>, rest: Bytes, record: Bytes)
    requires |header| == HEADER && Encodable(labels)
    ensures ScanLabels(Answer(header + EncodeName(labels) + rest, record), HEADER)
            == Labels(labels, HEADER + |EncodeName(labels)| - 1)
  {
    var q := header + EncodeName(labels) + rest;
    var r := Answer(q, record);
    ScanEncoded(header, labels, rest);
    assert forall k :: HEADER <= k < |q| ==> r[k] == q[k];
    ScanSame(q, r, HEADER);
  }

  /** What the builders mean to say. */
  function Meant(labels: seq<Bytes>, qtype: Byte, address: Bytes): Resource {
    Resource(labels, qtype as nat, 1, 0, address)
  }

  /** The reply to a query with `extra` behind its question. */
  function Reply(header: Bytes, labels: seq<Bytes>, question: Bytes, extra: Bytes, qtype: Byte, address: Bytes): Bytes
    requires Encodable(labels) && |address| < 256
  {
    Answer(Query(header, labels, question, extra), RecordOf(qtype, address))
  }

  /** A client reads a reply at the end of its question. */
  lemma {:induction false} FirstAnswerAt(header: Bytes, labels: seq<Bytes>, question: Bytes, extra: Bytes,
                                         qtype: Byte, address: Bytes)
    requires |header| == HEADER && Encodable(labels) && |question| == 4 && |address| < 256
    ensures var r := Reply(header, labels, question, extra, qtype, address);
            FirstAnswer(r) == ReadRecord(r, HEADER + |EncodeName(labels)| + 4)
  {
    var q := header + EncodeName(labels) + (question + extra);
    AnswerScan(header, labels, question + extra, RecordOf(qtype, address));
    var r := Answer(q, RecordOf(qtype, address));
    assert r[2] >= 128 && r[7] == 1;
  }

  /**
   * A client that asked a header-plus-question query reads back, as the first record of
   * the reply, the name it asked for with exactly the address the builder was given.
   */
  lemma ClientReadsAddress(header: Bytes, labels: seq<Bytes>, question: Bytes,
                           qtype: Byte, address: Bytes)
    requires |header| == HEADER && Encodable(labels) && |question| == 4 && |address| < 256
    ensures FirstAnswer(Reply(header, labels, question, [], qtype, address)) == Some(Meant(labels, qtype, address))
  {
    var q := header + EncodeName(labels) + (question + []);
    FirstAnswerAt(header, labels, question, [], qtype, address);
    AnswerScan(header, labels, question + [], RecordOf(qtype, address));
    RecordRead(AnswerFront(q), qtype, address, labels, HEADER + |EncodeName(labels)| - 1);
  }

  /** The record at the start of `extra`, if it is whole and named by the root. */
  function RootRecord(extra: Bytes): Option<Resource> {
    if |extra| < 2 || extra[0] != 0 then None else ReadFixed(extra, [], 1)
  }

  lemma WordMoves(r: Bytes, p: nat, part: Bytes, k: nat)
    requires Holds(r, p, part) && k + 1 < |part|
    ensures Word(r, p + k) == Word(part, k)
  {
    assert r[p + k] == part[k] && r[p + (k + 1)] == part[k + 1];
  }

  /** A whole record reads the same wherever it stands. */
  lemma FixedMoves(r: Bytes, p: nat, extra: Bytes)
    requires Holds(r, p, extra) && ReadFixed(extra, [], 1).Some?
    ensures ReadFixed(r, [], p + 1) == ReadFixed(extra, [], 1)
  {
    var n := Word(extra, 9);
    WordMoves(r, p, extra, 1);
    WordMoves(r, p, extra, 3);
    WordMoves(r, p, extra, 5);
    WordMoves(r, p, extra, 7);
    WordMoves(r, p, extra, 9);
    var data, rest := extra[11..11 + n], extra[11 + n..];
    assert extra == extra[..11] + (data + rest);
    HoldsParts(r, p, extra[..11], data + rest);
    HoldsParts(r, p + 11, data, rest);
    HoldsSlice(r, p + 11, data);
  }

  lemma RootRecordMoves(r: Bytes, p: nat, extra: Bytes)
    requires Holds(r, p, extra) && RootRecord(extra).Some?
    ensures ReadRecord(r, p) == RootRecord(extra)
  {
    HoldsFirst(r, p, extra);
    assert ScanLabels(r, p) == Labels([], p);
    FixedMoves(r, p, extra);
  }

  /** A query with `extra` behind its question. */
  function Query(header: Bytes, labels: seq<Bytes>, question: Bytes, extra: Bytes): Bytes
    requires Encodable(labels)
  {
    header + EncodeName(labels) + (question + extra)
  }

  /**
   * A whole record stands at `p` of a query, under any owner name: spelt out, or pointing
   * back to a name behind the header that is all there.
   */
  predicate WholeAt(q: Bytes, p: nat) {
    && ReadRecord(q, p).Some?
    && (q[p] >= 192 ==> Word(q, p) >= 0xC000 + HEADER && ScanLabels(q, Word(q, p) - 0xC000).end < |q|)
  }

  lemma FixedSame(q: Bytes, r: Bytes, name: seq<Bytes>, p: nat)
    requires |q| <= |r| && HEADER <= p && (forall k :: HEADER <= k < |q| ==> r[k] == q[k])
    requires ReadFixed(q, name, p).Some?
    ensures ReadFixed(r, name, p) == ReadFixed(q, name, p)
  {
    var n := Word(q, p + 8);
    assert Word(r, p) == Word(q, p) && Word(r, p + 2) == Word(q, p + 2) && Word(r, p + 4) == Word(q, p + 4);
    assert Word(r, p + 6) == Word(q, p + 6) && Word(r, p + 8) == n;
    assert r[p + 10..p + 10 + n] == q[p + 10..p + 10 + n];
  }

  /** A record behind the header reads the same in any message that goes on, or differs in the header alone. */
  lemma {:induction false} RecordSame(q: Bytes, r: Bytes, p: nat)
    requires |q| <= |r| && HEADER <= p && (forall k :: HEADER <= k < |q| ==> r[k] == q[k])
    requires WholeAt(q, p)
    ensures ReadRecord(r, p) == ReadRecord(q, p)
  {
    assert r[p] == q[p] && Word(r, p) == Word(q, p);
    if q[p] >= 192 {
      var at := Word(q, p) - 0xC000;
      ScanSame(q, r, at);
      FixedSame(q, r, ScanLabels(q, at).labels, p + 2);
    } else {
      ScanSame(q, r, p);
      FixedSame(q, r, ScanLabels(q, p).labels, ScanLabels(q, p).end + 1);
    }
  }

  lemma {:induction false} CarriedComesFirst(header: Bytes, labels: seq<Bytes>, question: Bytes, extra: Bytes,
                                             qtype: Byte, address: Bytes)
    requires |header| == HEADER && Encodable(labels) && |question| == 4 && |address| < 256
    requires WholeAt(Query(header, labels, question, extra), HEADER + |EncodeName(labels)| + 4)
    ensures FirstAnswer(Reply(header, labels, question, extra, qtype, address))
            == ReadRecord(Query(header, labels, question, extra), HEADER + |EncodeName(labels)| + 4)
  {
    var q := Query(header, labels, question, extra);
    var r := Reply(header, labels, question, extra, qtype, address);
    FirstAnswerAt(header, labels, question, extra, qtype, address);
    assert forall k :: HEADER <= k < |q| ==> r[k] == q[k];
    RecordSame(q, r, HEADER + |EncodeName(labels)| + 4);
  }

  /**
   * When the reply says what it means to: for every query that ends with its question or
   * goes on with a whole record of any name, the client reads the address first exactly
   * when nothing follows the question, or that record happens to be the answer itself.
   */
  lemma {:induction false} AddressComesFirstIff(header: Bytes, labels: seq<Bytes>, question: Bytes, extra: Bytes,
                                                qtype: Byte, address: Bytes)
    requires |header| == HEADER && Encodable(labels) && |question| == 4 && |address| < 256
    requires extra == [] || WholeAt(Query(header, labels, question, extra), HEADER + |EncodeName(labels)| + 4)
    ensures var first, meant := FirstAnswer(Reply(header, labels, question, extra, qtype, address)),
                                Some(Meant(labels, qtype, address));
            var carried := ReadRecord(Query(header, labels, question, extra), HEADER + |EncodeName(labels)| + 4);
            && (first == meant <==> extra == [] || carried == meant)
            && (extra != [] && carried.value.rtype != qtype as nat ==> first != meant)
            && (extra != [] ==> first == carried)
  {
    if extra == [] {
      ClientReadsAddress(header, labels, question, qtype, address);
    } else {
      CarriedComesFirst(header, labels, question, extra, qtype, address);
    }
  }

  const TYPE_OPT: nat := 41

  lemma RootRecordCarried(front: Bytes, extra: Bytes)
    requires RootRecord(extra).Some?
    ensures WholeAt(front + extra, |front|) && ReadRecord(front + extra, |front|) == RootRecord(extra)
  {
    assert Holds(front + extra, |front|, extra);
    RootRecordMoves(front + extra, |front|, extra);
    HoldsFirst(front + extra, |front|, extra);
  }

  /**
   * A query that carries an EDNS OPT record behind its question keeps it there, so that
   * record, of type 41, and not the address, is what follows the question of the reply.
   */
  lemma {:induction false} OptRecordComesFirst(header: Bytes, labels: seq<Bytes>, question: Bytes, opt: Bytes,
                                               qtype: Byte, address: Bytes)
    requires |header| == HEADER && Encodable(labels) && |question| == 4 && |address| < 256
    requires RootRecord(opt).Some? && RootRecord(opt).value.rtype == TYPE_OPT
    ensures var first := FirstAnswer(Reply(header, labels, question, opt, qtype, address));
            first.Some? && first.value.rtype == TYPE_OPT
            && (qtype as nat != TYPE_OPT ==> first != Some(Meant(labels, qtype, address)))
  {
    RootRecordCarried(header + EncodeName(labels) + question, opt);
    assert Query(header, labels, question, opt) == header + EncodeName(labels) + question + opt;
    AddressComesFirstIff(header, labels, question, opt, qtype, address);
  }

  // --- which reply ---------------------------------------------------------------------------

  datatype Decision = A(ip: nat) | Aaaa(ip: nat) | Nodata | Forward

  function Decide(qtype: nat, v4: Option<nat>, v6: Option<nat>): Decision {
    if qtype == TYPE_AAAA then
      if v6.Some? then Aaaa(v6.value) else if v4.Some? then Nodata else Forward
    else if v4.Some? then A(v4.value) else Forward
  }

  function Registered(table: map<NetworkModel.Key, nat>, k: NetworkModel.Key): Option<nat> {
    if k in table then Some(table[k]) else None
  }

  /**
   * A name with an AAAA entry alone would be forwarded upstream for any other type. The
   * registries the network manager keeps have no such name: none they own is ever forwarded,
   * and an answer names a leased address of that network.
   */
  lemma OwnedNamesStayHome(s: NetworkModel.State, k: NetworkModel.Key, qtype: nat)
    requires NetworkProofs.PairsOk(s) && NetworkProofs.NamesOk(s)
    ensures var d := Decide(qtype, Registered(s.dns4, k), Registered(s.dns6, k));
            && (d.Forward? <==> k !in s.dns4 && k !in s.dns6)
            && (d.A? ==> (k.0, d.ip) in s.held4)
            && (d.Aaaa? ==> (k.0, d.ip) in s.held6)
  {
    if k in s.dns6 {
      var l := (k.0, s.dns4[k]);
      assert l in s.pair && (l.0, s.pair[l]) in s.held6;
    }
  }

  /**
   * The selection alone forwards a name it knows exactly when the name is known only in
   * the AAAA registry and the question is for anything else.
   */
  lemma ForwardsKnownIff(qtype: nat, v4: Option<nat>, v6: Option<nat>)
    ensures Decide(qtype, v4, v6).Forward? && (v4.Some? || v6.Some?)
            <==> qtype != TYPE_AAAA && v4.None? && v6.Some?
  {
  }

  /** Over two registries: some question about a known name is forwarded exactly when a name is known only as AAAA. */
  lemma KnownNameForwardedIff(dns4: map<NetworkModel.Key, nat>, dns6: map<NetworkModel.Key, nat>)
    ensures (exists k, qtype: nat :: (k in dns4 || k in dns6)
                                     && Decide(qtype, Registered(dns4, k), Registered(dns6, k)).Forward?)
            <==> exists k :: k in dns6 && k !in dns4
  {
    if k :| k in dns6 && k !in dns4 {
      assert Decide(TYPE_A, Registered(dns4, k), Registered(dns6, k)).Forward?;
    }
  }
}
