/** What the name server's parser, builders and selection mean, told without them. */
module DnsNames {
  import opened Common
  import opened DnsWire
  import Ipam
  import NetworkModel
  import NetworkProofs
  import NetworkRuns
  import NetworkEffects

  // --- the name ----------------------------------------------------------------

  const PERIOD: Byte := 46

  /** A byte string cut at every dot. */
  function SplitDots(b: Bytes): (parts: seq<Bytes>)
    ensures parts != []
  {
    if b == [] then [[]]
    else
      var rest := SplitDots(b[1..]);
      if b[0] == PERIOD then [[]] + rest else [[b[0]] + rest[0]] + rest[1..]
  }

  /** `y` is `x` with every A to Z as its a to z, and every other byte as it is. */
  ghost predicate Folded(x: Bytes, y: Bytes) {
    |x| == |y| && forall i :: 0 <= i < |x| ==> y[i] == if 65 <= x[i] <= 90 then x[i] + 32 else x[i]
  }

  /** The two differ in the case of letters at most. */
  ghost predicate SameButCase(x: Bytes, y: Bytes) {
    |x| == |y| && forall i :: 0 <= i < |x| ==>
      || x[i] == y[i]
      || (65 <= x[i] <= 90 && y[i] == x[i] + 32)
      || (65 <= y[i] <= 90 && x[i] == y[i] + 32)
  }

  ghost predicate DotFree(labels: seq<Bytes>) {
    forall l :: l in labels ==> PERIOD !in l
  }

  function LowerEach(labels: seq<Bytes>): seq<Bytes> {
    seq(|labels|, i requires 0 <= i < |labels| => Lower(labels[i]))
  }

  lemma LowerIs(b: Bytes)
    ensures Folded(b, Lower(b)) && (PERIOD in Lower(b) ==> PERIOD in b)
  {
  }

  lemma LowerAppend(a: Bytes, b: Bytes)
    ensures Lower(a + b) == Lower(a) + Lower(b)
  {
  }

  lemma {:induction false} LowerJoin(labels: seq<Bytes>)
    ensures Lower(Join(labels)) == Join(LowerEach(labels))
    decreases |labels|
  {
    if |labels| > 1 {
      LowerJoin(labels[1..]);
      LowerAppend(labels[0] + [DOT], Join(labels[1..]));
      LowerAppend(labels[0], [DOT]);
      assert Lower([DOT]) == [DOT];
      assert LowerEach(labels)[1..] == LowerEach(labels[1..]);
    }
  }

  lemma {:induction false} SplitWhole(l: Bytes)
    requires PERIOD !in l
    ensures SplitDots(l) == [l]
    decreases |l|
  {
    if l != [] {
      SplitWhole(l[1..]);
      assert [l[0]] + l[1..] == l;
    }
  }

  lemma {:induction false} SplitFirst(l: Bytes, rest: Bytes)
    requires PERIOD !in l
    ensures SplitDots(l + [PERIOD] + rest) == [l] + SplitDots(rest)
    decreases |l|
  {
    var b := l + [PERIOD] + rest;
    if l == [] {
      assert b[1..] == rest;
    } else {
      SplitFirst(l[1..], rest);
      assert b[1..] == l[1..] + [PERIOD] + rest;
      assert [l[0]] + l[1..] == l;
    }
  }

  lemma {:induction false} SplitJoin(labels: seq<Bytes>)
    requires labels != [] && DotFree(labels)
    ensures SplitDots(Join(labels)) == labels
    decreases |labels|
  {
    if |labels| == 1 {
      SplitWhole(labels[0]);
    } else {
      SplitJoin(labels[1..]);
      SplitFirst(labels[0], Join(labels[1..]));
      assert [labels[0]] + labels[1..] == labels;
    }
  }

  lemma NameParts(labels: seq<Bytes>)
    requires labels != [] && DotFree(labels)
    ensures NameOf(labels).Some? && SplitDots(NameOf(labels).value) == LowerEach(labels)
  {
    LowerJoin(labels);
    forall l | l in LowerEach(labels) ensures PERIOD !in l {
      var i :| 0 <= i < |labels| && LowerEach(labels)[i] == l;
      LowerIs(labels[i]);
    }
    SplitJoin(LowerEach(labels));
  }

  /**
   * The parsed name of an encoded question, cut at every dot, is its labels as text, in
   * order and with their letters lower-cased. The root has no name. The type is the two
   * octets behind the name.
   */
  lemma ParsedNameIs(header: Bytes, labels: seq<Bytes>, hi: Byte, lo: Byte, rest: Bytes, lossy: Lossy)
    requires |header| == 12 && Encodable(labels) && DotFree(Decoded(labels, lossy))
    ensures var (name, qtype) := Parse(header + EncodeName(labels) + ([hi, lo] + rest), lossy);
            && qtype == hi as nat * 256 + lo as nat
            && (name.None? <==> labels == [])
            && (name.Some? ==>
                  var parts := SplitDots(name.value);
                  |parts| == |labels| && forall i :: 0 <= i < |labels| ==> Folded(lossy(labels[i]), parts[i]))
  {
    ParseEncoded(header, labels, hi, lo, rest, lossy);
    var text := Decoded(labels, lossy);
    if labels != [] {
      NameParts(text);
      forall i | 0 <= i < |labels| ensures Folded(lossy(labels[i]), LowerEach(text)[i]) { LowerIs(text[i]); }
    }
  }

  lemma LowerBlind(x: Bytes, y: Bytes)
    requires SameButCase(x, y)
    ensures Lower(x) == Lower(y)
  {
  }

  /** Questions whose labels differ in the case of letters alone parse to the same name. */
  lemma CaseBlind(h1: Bytes, h2: Bytes, a: seq<Bytes>, b: seq<Bytes>, hi: Byte, lo: Byte, r1: Bytes, r2: Bytes,
                  lossy: Lossy)
    requires |h1| == |h2| == 12 && Encodable(a) && Encodable(b) && |a| == |b|
    requires forall i :: 0 <= i < |a| ==> SameButCase(lossy(a[i]), lossy(b[i]))
    ensures Parse(h1 + EncodeName(a) + ([hi, lo] + r1), lossy) == Parse(h2 + EncodeName(b) + ([hi, lo] + r2), lossy)
  {
    ParseEncoded(h1, a, hi, lo, r1, lossy);
    ParseEncoded(h2, b, hi, lo, r2, lossy);
    var x, y := Decoded(a, lossy), Decoded(b, lossy);
    LowerJoin(x);
    LowerJoin(y);
    forall i | 0 <= i < |a| ensures LowerEach(x)[i] == LowerEach(y)[i] { LowerBlind(x[i], y[i]); }
    assert LowerEach(x) == LowerEach(y);
  }

  // --- questions that do not parse ------------------------------------------------

  /** Labels spelt out, with no terminator behind them. */
  function Spelt(labels: seq<Bytes>): Bytes
    requires Encodable(labels)
  {
    if labels == [] then [] else [|labels[0]| as Byte] + labels[0] + Spelt(labels[1..])
  }

  lemma {:induction false} SpeltThenMalformed(q: Bytes, i: nat, labels: seq<Bytes>)
    requires Encodable(labels) && Holds(q, i, Spelt(labels)) && ScanLabels(q, i + |Spelt(labels)|).Malformed?
    ensures ScanLabels(q, i).Malformed?
    decreases |labels|
  {
    if labels != [] {
      var l := labels[0];
      HeadAt(q, i, l, Spelt(labels[1..]));
      SpeltThenMalformed(q, i + 1 + |l|, labels[1..]);
      ScanStep(q, i, l);
    }
  }

  /**
   * No name, and type A: for a message without a header, and for one whose labels lead to a
   * length octet of 64 or more, which is a pointer or reserved, or to a label cut short.
   */
  lemma ParseRejects(header: Bytes, labels: seq<Bytes>, n: Byte, rest: Bytes, lossy: Lossy)
    requires Encodable(labels)
    ensures |header| < 12 ==> Parse(header, lossy) == (None, 1)
    ensures |header| == 12 && (n >= 64 || (n > 0 && |rest| < n as nat)) ==>
              Parse(header + Spelt(labels) + ([n] + rest), lossy) == (None, 1)
  {
    if |header| == 12 && (n >= 64 || (n > 0 && |rest| < n as nat)) {
      var q := header + Spelt(labels) + ([n] + rest);
      assert Holds(q, 12, Spelt(labels));
      assert q[12 + |Spelt(labels)|] == n;
      SpeltThenMalformed(q, 12, labels);
    }
  }

  /** A question whose type is cut off asks for A. */
  lemma CutTypeIsA(header: Bytes, labels: seq<Bytes>, rest: Bytes, lossy: Lossy)
    requires |header| == 12 && Encodable(labels) && |rest| < 2
    ensures Parse(header + EncodeName(labels) + rest, lossy).1 == 1
  {
    ScanEncoded(header, labels, rest);
  }

  // --- what a client reads out of each reply ------------------------------------------

  /** A plain question: header, name, type and class. */
  ghost predicate PlainQuestion(q: Bytes, labels: seq<Bytes>) {
    Encodable(labels) && exists header: Bytes, question: Bytes ::
      |header| == 12 && |question| == 4 && q == header + EncodeName(labels) + question
  }

  /** Out of an A reply a client reads an A record, out of an AAAA reply an AAAA record, with the given octets. */
  lemma BuildersAnswer(q: Bytes, labels: seq<Bytes>, a: Bytes, aaaa: Bytes)
    requires PlainQuestion(q, labels) && |a| == 4 && |aaaa| == 16
    ensures FirstAnswer(BuildAnswer(q, a)) == Some(Resource(labels, 1, 1, 0, a))
    ensures FirstAnswer(BuildAaaaAnswer(q, aaaa)) == Some(Resource(labels, 28, 1, 0, aaaa))
  {
    var header: Bytes, question: Bytes :|
      |header| == 12 && |question| == 4 && q == header + EncodeName(labels) + question;
    assert question + [] == question;
    ClientReadsAddress(header, labels, question, 1, a);
    ClientReadsAddress(header, labels, question, 28, aaaa);
  }

  /** The response bit and the recursion bit are set; the octets of the header are otherwise as they were. */
  ghost predicate Responds(q: Bytes, r: Bytes) {
    && |q| >= 12 && |r| >= |q|
    && r[2] >= 128 && r[2] % 128 == q[2] % 128 && r[3] >= 128
    && (forall k :: 0 <= k < |q| && k != 2 && k != 3 && k != 7 ==> r[k] == q[k])
  }

  /** An answer responds with one record, behind the query, and leaves the response code as it was. */
  lemma AnswerHeader(q: Bytes, record: Bytes)
    requires |q| >= 12
    ensures var r := Answer(q, record);
            Responds(q, r) && r[3] % 128 == q[3] % 128 && r[7] == 1 && r[|q|..] == record
  {
  }

  /** An error responds with the code it is given and adds nothing. */
  lemma ErrorHeader(q: Bytes, rcode: Byte)
    requires |q| >= 12
    ensures var r := BuildError(q, rcode);
            && Responds(q, r) && |r| == |q| && r[7] == q[7]
            && r[3] % 16 == rcode % 16 && r[3] / 16 % 8 == q[3] / 16 % 8
  {
  }

  /** A message without a header comes back as it is. */
  lemma NoHeaderNoReply(q: Bytes, a: Bytes, aaaa: Bytes, rcode: Byte)
    requires |q| < 12 && |a| == 4 && |aaaa| == 16
    ensures BuildAnswer(q, a) == q && BuildAaaaAnswer(q, aaaa) == q && BuildError(q, rcode) == q
  {
  }

  // --- which reply -------------------------------------------------------------------

  /** Every question and what it is given: AAAA for AAAA if known, no data if only A is, A for anything else. */
  lemma SelectionIs(qtype: nat, v4: Option<nat>, v6: Option<nat>, ip: nat)
    ensures var d := Decide(qtype, v4, v6);
            && (d == A(ip) <==> qtype != 28 && v4 == Some(ip))
            && (d == Aaaa(ip) <==> qtype == 28 && v6 == Some(ip))
            && (d == Nodata <==> qtype == 28 && v6.None? && v4.Some?)
  {
  }

  /** A name an endpoint was just attached under: A gives its v4 address, AAAA its v6 address or no data. */
  lemma AttachedNameAnswers(s: NetworkModel.State, net: Ipam.NetId, requested: Option<nat>,
                            names: seq<NetworkModel.Name>, x: NetworkModel.Name, qtype: nat)
    requires NetworkProofs.Inv(s) && x in names
    requires NetworkModel.Attach(s, net, requested, names, NetworkModel.GOOD_HOST).1.Ok?
    ensures var (z, r) := NetworkModel.Attach(s, net, requested, names, NetworkModel.GOOD_HOST);
            Decide(qtype, Registered(z.dns4, (net, x)), Registered(z.dns6, (net, x)))
            == if qtype != 28 then A(r.value.ip)
               else if r.value.ip6.Some? then Aaaa(r.value.ip6.value)
               else Nodata
  {
    var (z, r) := NetworkModel.Attach(s, net, requested, names, NetworkModel.GOOD_HOST);
    NetworkEffects.AttachDoes(s, net, requested, names, NetworkModel.GOOD_HOST);
    NetworkEffects.AttachAnswers(s, net, requested, names, NetworkModel.GOOD_HOST);
    RegisteredAnswers(s, z, net, r.value, names, x, qtype);
  }

  lemma RegisteredAnswers(s: NetworkModel.State, z: NetworkModel.State, net: Ipam.NetId, ep: NetworkModel.Endpoint,
                          names: seq<NetworkModel.Name>, x: NetworkModel.Name, qtype: nat)
    requires NetworkProofs.Inv(s) && net in s.networks && x in names
    requires NetworkEffects.Registered6(s, z, net, ep, names) && NetworkEffects.Drew6(s, net, ep.ip6)
    ensures Decide(qtype, Registered(z.dns4, (net, x)), Registered(z.dns6, (net, x)))
            == if qtype != 28 then A(ep.ip) else if ep.ip6.Some? then Aaaa(ep.ip6.value) else Nodata
  {
    if s.networks[net].v6.None? { NetworkRuns.NoV6Names(s, net); }
  }
}
