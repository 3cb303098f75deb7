/** The attached-stream client: HTTP upgrade handshake, then multiplexed frames. */
module MuxStream {
  import opened Common

  const CR: Byte := 13
  const LF: Byte := 10

  // --- frames ---------------------------------------------------------------------

  /** One write to stdout or stderr. */
  datatype Frame = Frame(stderr: bool, payload: Bytes)

  /** The big-endian length in bytes 4 to 7 of a frame header. */
  function PayloadLength(b: Bytes): nat
    requires |b| >= 8
  {
    ((b[4] as nat * 256 + b[5] as nat) * 256 + b[6] as nat) * 256 + b[7] as nat
  }

  /** A whole frame is at hand. */
  predicate FrameReady(b: Bytes) {
    |b| >= 8 && |b| >= 8 + PayloadLength(b)
  }

  function FirstFrame(b: Bytes): Frame
    requires FrameReady(b)
  {
    Frame(b[0] == 2, b[8..8 + PayloadLength(b)])
  }

  /** All frames of a byte string at once, and what is left over. */
  function Decode(b: Bytes): (seq<Frame>, Bytes)
    decreases |b|
  {
    if !FrameReady(b) then ([], b)
    else
      var (fs, rest) := Decode(b[8 + PayloadLength(b)..]);
      ([FirstFrame(b)] + fs, rest)
  }

  /** More bytes never change the frames already decoded. */
  lemma {:induction false} DecodeAppend(a: Bytes, b: Bytes)
    ensures Decode(a + b).0 == Decode(a).0 + Decode(Decode(a).1 + b).0
    ensures Decode(a + b).1 == Decode(Decode(a).1 + b).1
    decreases |a|
  {
    if FrameReady(a) {
      var n := 8 + PayloadLength(a);
      FrameStays(a, b);
      DecodeAppend(a[n..], b);
      Regroup([FirstFrame(a)], Decode(a[n..]).0, Decode(Decode(a).1 + b).0);
    } else {
      assert [] + Decode(a + b).0 == Decode(a + b).0;
    }
  }

  /** A frame at hand stays the first frame when more bytes come. */
  lemma FrameStays(a: Bytes, b: Bytes)
    requires FrameReady(a)
    ensures FrameReady(a + b) && PayloadLength(a + b) == PayloadLength(a) && FirstFrame(a + b) == FirstFrame(a)
    ensures var n := 8 + PayloadLength(a); (a + b)[n..] == a[n..] + b
  {
    var c, n := a + b, 8 + PayloadLength(a);
    assert c[0] == a[0] && c[4] == a[4] && c[5] == a[5] && c[6] == a[6] && c[7] == a[7];
    assert c[8..n] == a[8..n];
  }

  // --- the handshake ----------------------------------------------------------------

  predicate BlankLineAt(b: Bytes, i: nat)
    requires i + 4 <= |b|
  {
    b[i..i + 4] == [CR, LF, CR, LF]
  }

  /** The end of the response header: just past the first blank line from `i` on. */
  function HeaderEnd(b: Bytes, i: nat): (r: Option<nat>)
    ensures r.Some? ==> i + 4 <= r.value <= |b|
    decreases |b| - i
  {
    if i + 4 > |b| then None
    else if BlankLineAt(b, i) then Some(i + 4)
    else HeaderEnd(b, i + 1)
  }

  /** A header found early is the one found in the whole stream. */
  lemma {:induction false} HeaderEndStable(b: Bytes, more: Bytes, i: nat)
    requires HeaderEnd(b, i).Some?
    ensures HeaderEnd(b + more, i) == HeaderEnd(b, i)
    decreases |b| - i
  {
    assert (b + more)[i..i + 4] == b[i..i + 4];
    if !BlankLineAt(b, i) { HeaderEndStable(b, more, i + 1); }
  }

  /** The first line of the header names status 101. */
  predicate Switches(header: Bytes) {
    exists i :: 0 <= i < |FirstLine(header)| && Says101(FirstLine(header), i)
  }

  predicate Says101(line: Bytes, i: nat) {
    i + 3 <= |line| && line[i..i + 3] == [49, 48, 49]
  }

  function FirstLine(b: Bytes): Bytes {
    if b == [] || b[0] == LF then [] else [b[0]] + FirstLine(b[1..])
  }

  datatype Failure = Closed | NotUpgraded

  /**
   * Read until the header is complete. However the stream is cut, the header ends at
   * the same byte, and leftover plus unread chunks are exactly what follows it.
   */
  method UpgradeStream(chunks: seq<Bytes>) returns (r: Result<Bytes, Failure>, consumed: nat)
    ensures consumed <= |chunks|
    ensures var stream, end := Concat(chunks), HeaderEnd(Concat(chunks), 0);
            match r
            case Err(Closed) => end.None?
            case Err(NotUpgraded) => end.Some? && !Switches(stream[..end.value])
            case Ok(leftover) => end.Some? && Switches(stream[..end.value])
                                 && leftover + Concat(chunks[consumed..]) == stream[end.value..]
  {
    var buf := [];
    consumed := 0;
    while consumed < |chunks|
      invariant consumed <= |chunks| && buf == Concat(chunks[..consumed])
      invariant consumed > 0 ==> HeaderEnd(buf, 0).None?
    {
      ConcatNext(chunks, consumed);
      buf := buf + chunks[consumed];
      consumed := consumed + 1;
      var end := HeaderEnd(buf, 0);
      if end.Some? {
        ConcatSplit(chunks, consumed);
        HeaderEndStable(buf, Concat(chunks[consumed..]), 0);
        ghost var stream := Concat(chunks);
        assert stream[..end.value] == buf[..end.value];
        if !Switches(buf[..end.value]) {
          return Err(NotUpgraded), consumed;
        }
        assert buf[end.value..] + Concat(chunks[consumed..]) == stream[end.value..];
        return Ok(buf[end.value..]), consumed;
      }
    }
    assert chunks[..consumed] == chunks;
    return Err(Closed), consumed;
  }

  // --- the frame loop -----------------------------------------------------------------

  class AttachedStream {
    var pending: Bytes
    var output: seq<Frame>

    constructor (leftover: Bytes)
      ensures pending == leftover && output == []
    {
      pending, output := leftover, [];
    }

    /** Emit every whole frame that is pending. */
    method Drain()
      modifies this
      ensures pending == Decode(old(pending)).1
      ensures output == old(output) + Decode(old(pending)).0
    {
      assert output + Decode(pending).0 == old(output) + Decode(old(pending)).0;
      while FrameReady(pending)
        invariant output + Decode(pending).0 == old(output) + Decode(old(pending)).0
        invariant Decode(pending).1 == Decode(old(pending)).1
        decreases |pending|
      {
        var frame := FirstFrame(pending);
        var rest := pending[8 + PayloadLength(pending)..];
        assert output + ([frame] + Decode(rest).0) == (output + [frame]) + Decode(rest).0;
        output := output + [frame];
        pending := rest;
      }
      assert output + [] == output;
    }

    /** Take in one read. */
    method Feed(chunk: Bytes)
      modifies this
      ensures pending == Decode(old(pending) + chunk).1
      ensures output == old(output) + Decode(old(pending) + chunk).0
    {
      pending := pending + chunk;
      Drain();
    }

    /** Without a terminal: drain, read, and so on until the stream ends. */
    method Run(chunks: seq<Bytes>)
      modifies this
      ensures pending == Decode(old(pending) + Concat(chunks)).1
      ensures output == old(output) + Decode(old(pending) + Concat(chunks)).0
    {
      Drain();
      ghost var seen := old(pending);
      for i := 0 to |chunks|
        invariant seen == old(pending) + Concat(chunks[..i])
        invariant pending == Decode(seen).1 && output == old(output) + Decode(seen).0
      {
        ConcatNext(chunks, i);
        Regroup(old(pending), Concat(chunks[..i]), chunks[i]);
        FeedStep(old(output), seen, chunks[i]);
        Feed(chunks[i]);
        seen := seen + chunks[i];
      }
      assert chunks[..|chunks|] == chunks;
    }

    /** On a terminal the bytes pass straight through. */
    method RunTty(chunks: seq<Bytes>) returns (stdout: Bytes)
      modifies this
      ensures stdout == old(pending) + Concat(chunks) && pending == []
    {
      stdout := pending;
      pending := [];
      assert Concat(chunks[..0]) == [];
      for i := 0 to |chunks|
        invariant stdout == old(pending) + Concat(chunks[..i]) && pending == []
      {
        ConcatNext(chunks, i);
        stdout := stdout + chunks[i];
      }
      assert chunks[..|chunks|] == chunks;
    }
  }

  /** Decoding what was pending plus one read continues the decoding of everything seen. */
  lemma FeedStep(shown: seq<Frame>, seen: Bytes, chunk: Bytes)
    ensures (shown + Decode(seen).0) + Decode(Decode(seen).1 + chunk).0 == shown + Decode(seen + chunk).0
    ensures Decode(Decode(seen).1 + chunk).1 == Decode(seen + chunk).1
  {
    DecodeAppend(seen, chunk);
    Regroup(shown, Decode(seen).0, Decode(Decode(seen).1 + chunk).0);
  }

  /** What a session shows, given the whole stream the server sent. */
  function Shown(stream: Bytes): Result<seq<Frame>, Failure> {
    var end := HeaderEnd(stream, 0);
    if end.None? then Err(Closed)
    else if !Switches(stream[..end.value]) then Err(NotUpgraded)
    else Ok(Decode(stream[end.value..]).0)
  }

  /** Handshake and frame loop together: the result depends on the stream, not on how reads cut it. */
  method Session(chunks: seq<Bytes>) returns (r: Result<seq<Frame>, Failure>)
    ensures r == Shown(Concat(chunks))
  {
    var up, consumed := UpgradeStream(chunks);
    if up.Err? {
      return Err(up.error);
    }
    var attached := new AttachedStream(up.value);
    attached.Run(chunks[consumed..]);
    assert attached.output == Decode(up.value + Concat(chunks[consumed..])).0;
    return Ok(attached.output);
  }

  // --- what an encoder sends is what is shown -------------------------------------------

  const MAX_PAYLOAD: nat := 0x1_0000_0000

  /** The four big-endian bytes of a length. */
  function LengthBytes(n: nat): Bytes
    requires n < MAX_PAYLOAD
  {
    var a := n / 256;
    var b := a / 256;
    [(b / 256) as Byte, (b % 256) as Byte, (a % 256) as Byte, (n % 256) as Byte]
  }

  /** A frame on the wire: stream 2 is stderr, any other byte stdout. */
  function Encode(kind: Byte, payload: Bytes): Bytes
    requires |payload| < MAX_PAYLOAD
  {
    [kind, 0, 0, 0] + LengthBytes(|payload|) + payload
  }

  datatype Sent = Sent(kind: Byte, payload: Bytes)

  ghost predicate Encodable(fs: seq<Sent>) {
    forall f :: f in fs ==> |f.payload| < MAX_PAYLOAD
  }

  function EncodeAll(fs: seq<Sent>): Bytes
    requires Encodable(fs)
  {
    if fs == [] then [] else Encode(fs[0].kind, fs[0].payload) + EncodeAll(fs[1..])
  }

  function Frames(fs: seq<Sent>): seq<Frame> {
    if fs == [] then [] else [Frame(fs[0].kind == 2, fs[0].payload)] + Frames(fs[1..])
  }

  lemma EncodedLength(kind: Byte, payload: Bytes, more: Bytes)
    requires |payload| < MAX_PAYLOAD
    ensures var b := Encode(kind, payload) + more;
            |b| >= 8 + |payload| && PayloadLength(b) == |payload|
  {
    var b := Encode(kind, payload) + more;
    var n := LengthBytes(|payload|);
    assert b[4] == n[0] && b[5] == n[1] && b[6] == n[2] && b[7] == n[3];
  }

  lemma EncodedFrame(kind: Byte, payload: Bytes, more: Bytes)
    requires |payload| < MAX_PAYLOAD
    ensures var b := Encode(kind, payload) + more;
            Decode(b).0 == [Frame(kind == 2, payload)] + Decode(more).0 && Decode(b).1 == Decode(more).1
  {
    var b := Encode(kind, payload) + more;
    EncodedLength(kind, payload, more);
    assert b[8..8 + |payload|] == payload;
    assert b[8 + |payload|..] == more;
  }

  /** Encoded frames decode to themselves, in order, whatever follows them. */
  lemma {:induction false} DecodeEncoded(fs: seq<Sent>, tail: Bytes)
    requires Encodable(fs)
    ensures Decode(EncodeAll(fs) + tail).0 == Frames(fs) + Decode(tail).0
    ensures Decode(EncodeAll(fs) + tail).1 == Decode(tail).1
    decreases |fs|
  {
    if fs == [] {
      assert EncodeAll(fs) + tail == tail;
      assert Frames(fs) + Decode(tail).0 == Decode(tail).0;
    } else {
      var rest := EncodeAll(fs[1..]) + tail;
      DecodeEncoded(fs[1..], tail);
      EncodedFrame(fs[0].kind, fs[0].payload, rest);
      Regroup(Encode(fs[0].kind, fs[0].payload), EncodeAll(fs[1..]), tail);
      Regroup([Frame(fs[0].kind == 2, fs[0].payload)], Frames(fs[1..]), Decode(tail).0);
    }
  }

  lemma Regroup<T>(a: seq<T>, b: seq<T>, c: seq<T>)
    ensures (a + b) + c == a + (b + c)
  {
  }

  /** A concatenation of encoded frames shows exactly those frames and leaves nothing. */
  lemma EncodeDecode(fs: seq<Sent>)
    requires Encodable(fs)
    ensures Decode(EncodeAll(fs)) == (Frames(fs), [])
  {
    DecodeEncoded(fs, []);
    assert EncodeAll(fs) + [] == EncodeAll(fs);
    assert Decode([]) == ([], []);
    assert Frames(fs) + [] == Frames(fs);
  }

  // --- the handshake, told by the bytes -------------------------------------------------

  /** CR LF CR LF stands at `i`. */
  predicate CrLfCrLfAt(b: Bytes, i: nat) {
    i + 4 <= |b| && b[i] == 13 && b[i + 1] == 10 && b[i + 2] == 13 && b[i + 3] == 10
  }

  /** The digits 101 stand at `i`, before any line feed. */
  predicate Status101At(b: Bytes, i: nat) {
    && i + 3 <= |b| && b[i] == 49 && b[i + 1] == 48 && b[i + 2] == 49
    && forall k :: 0 <= k < i + 3 ==> b[k] != 10
  }

  lemma BlankIs(b: Bytes, i: nat)
    requires i + 4 <= |b|
    ensures BlankLineAt(b, i) <==> CrLfCrLfAt(b, i)
  {
  }

  lemma {:induction false} HeaderEndAt(b: Bytes, i: nat, n: nat)
    requires i <= n && CrLfCrLfAt(b, n) && forall k :: i <= k < n ==> !CrLfCrLfAt(b, k)
    ensures HeaderEnd(b, i) == Some(n + 4)
    decreases n - i
  {
    BlankIs(b, i);
    if i < n { HeaderEndAt(b, i + 1, n); }
  }

  lemma {:induction false} NoHeaderEnd(b: Bytes, i: nat)
    requires forall k :: i <= k < |b| ==> !CrLfCrLfAt(b, k)
    ensures HeaderEnd(b, i).None?
    decreases |b| - i
  {
    if i + 4 <= |b| {
      BlankIs(b, i);
      NoHeaderEnd(b, i + 1);
    }
  }

  lemma {:induction false} FirstLineIs(b: Bytes)
    ensures var l := FirstLine(b);
            && |l| <= |b| && (forall k :: 0 <= k < |l| ==> l[k] == b[k] && b[k] != 10)
            && (|l| < |b| ==> b[|l|] == 10)
    decreases |b|
  {
    if b != [] && b[0] != LF { FirstLineIs(b[1..]); }
  }

  lemma SwitchesIff(b: Bytes)
    ensures Switches(b) <==> exists i: nat :: Status101At(b, i)
  {
    var l := FirstLine(b);
    FirstLineIs(b);
    if i :| 0 <= i < |l| && Says101(l, i) {
      assert l[i] == l[i..i + 3][0] && l[i + 1] == l[i..i + 3][1] && l[i + 2] == l[i..i + 3][2];
      assert Status101At(b, i);
    }
    if i: nat :| Status101At(b, i) {
      assert |l| < |b| ==> b[|l|] == 10;
      assert i + 3 <= |l|;
      assert l[i..i + 3] == [49, 48, 49];
      assert Says101(l, i);
    }
  }

  /** A stream without a blank line is one that closes during the handshake. */
  lemma NoBlankLineCloses(b: Bytes)
    requires forall k :: 0 <= k < |b| ==> !CrLfCrLfAt(b, k)
    ensures Shown(b) == Err(Closed)
  {
    NoHeaderEnd(b, 0);
  }

  /** The blank line of a header that holds none of its own. */
  lemma HeaderEnds(header: Bytes, rest: Bytes)
    requires forall k :: 0 <= k < |header| ==> !CrLfCrLfAt(header + [13, 10, 13, 10], k)
    ensures HeaderEnd(header + [13, 10, 13, 10] + rest, 0) == Some(|header| + 4)
  {
    var front := header + [13, 10, 13, 10];
    var b := front + rest;
    forall k | 0 <= k < |header| ensures !CrLfCrLfAt(b, k) { assert !CrLfCrLfAt(front, k); }
    HeaderEndAt(b, 0, |header|);
  }

  lemma StatusInHeader(header: Bytes)
    ensures (exists i: nat :: Status101At(header + [13, 10, 13, 10], i)) <==> exists i: nat :: Status101At(header, i)
  {
    var front := header + [13, 10, 13, 10];
    var n := |header|;
    assert front[n] == 13 && front[n + 1] == 10 && forall k :: 0 <= k < n ==> front[k] == header[k];
    if i: nat :| Status101At(front, i) {
      assert i + 3 <= n + 1 && front[i + 2] == 49;
      assert Status101At(header, i);
    }
    if i: nat :| Status101At(header, i) { assert Status101At(front, i); }
  }

  /**
   * A header, a blank line and encoded frames show exactly those frames, stream 2 as stderr,
   * when the first line of the header holds 101; otherwise the upgrade has failed.
   */
  lemma HandshakeShows(header: Bytes, fs: seq<Sent>)
    requires Encodable(fs) && forall k :: 0 <= k < |header| ==> !CrLfCrLfAt(header + [13, 10, 13, 10], k)
    ensures var r := Shown(header + [13, 10, 13, 10] + EncodeAll(fs));
            if exists i: nat :: Status101At(header, i) then
              r.Ok? && |r.value| == |fs|
              && forall i :: 0 <= i < |fs| ==> r.value[i] == Frame(fs[i].kind == 2, fs[i].payload)
            else r == Err(NotUpgraded)
  {
    var front := header + [13, 10, 13, 10];
    var b := front + EncodeAll(fs);
    HeaderEnds(header, EncodeAll(fs));
    assert b[..|front|] == front && b[|front|..] == EncodeAll(fs);
    SwitchesIff(front);
    StatusInHeader(header);
    EncodeDecode(fs);
    FramesAre(fs);
  }

  lemma {:induction false} FramesAre(fs: seq<Sent>)
    ensures |Frames(fs)| == |fs| && forall i :: 0 <= i < |fs| ==> Frames(fs)[i] == Frame(fs[i].kind == 2, fs[i].payload)
    decreases |fs|
  {
    if fs != [] { FramesAre(fs[1..]); }
  }

  /** The eight octets of a frame header: the stream, three zeros, the length with its high octet first. */
  lemma EncodeIs(kind: Byte, payload: Bytes)
    requires |payload| < MAX_PAYLOAD
    ensures var b := Encode(kind, payload);
            && |b| == 8 + |payload| && b[0] == kind && b[1] == b[2] == b[3] == 0 && b[8..] == payload
            && b[4] as nat * 16777216 + b[5] as nat * 65536 + b[6] as nat * 256 + b[7] as nat == |payload|
  {
  }
}
