/** The resumable, verified blob download, against a registry that may answer anything. */
module BlobFetch {
  import opened Common

  type Digest = string

  const MAX_FETCH_ATTEMPTS := 4
  const TOO_MANY_REQUESTS := 429
  const PARTIAL_CONTENT := 206
  const RANGE_NOT_SATISFIABLE := 416

  /** How a response body stops: at its end, by going idle, or by a stream error. */
  datatype Ending = Complete | Stalled | Broken(transport: bool)

  /**
   * What one request meets. A body that stops early leaves only its first `flushed`
   * bytes on disk: what the write buffer still held is lost with it.
   */
  datatype Answer =
    | NoResponse(transport: bool)
    | Response(status: nat, chunks: seq<Bytes>, ending: Ending, flushed: nat)

  datatype AttemptError = AttemptError(retryable: bool)

  predicate Success(status: nat) { 200 <= status < 300 }
  predicate ServerError(status: nat) { 500 <= status < 600 }

  function Min(a: nat, b: nat): nat { if a <= b then a else b }

  /** The two files of a download: the published blob and the leftover of earlier attempts. */
  datatype Files = Files(dest: Option<Bytes>, part: Option<Bytes>)

  /** The bytes a resumed request asks to continue from. */
  function Leftover(f: Files): Bytes {
    if f.part.Some? then f.part.value else []
  }

  /** What an accepted response starts from: a 206 to a ranged request continues, the rest restart. */
  function Start(f: Files, status: nat): Bytes {
    if status == PARTIAL_CONTENT && Leftover(f) != [] then Leftover(f) else []
  }

  /** `fetch_blob_attempt` as a step on the files. */
  function Attempt(hash: Bytes -> Digest, expected: Digest, f: Files, a: Answer): (Files, Result<nat, AttemptError>) {
    match a
    case NoResponse(transport) => (f, Err(AttemptError(transport)))
    case Response(status, chunks, ending, flushed) =>
      if status == RANGE_NOT_SATISFIABLE then (f.(part := None), Err(AttemptError(true)))
      else if !Success(status) then (f, Err(AttemptError(status == TOO_MANY_REQUESTS || ServerError(status))))
      else
        var body := Concat(chunks);
        var all := Start(f, status) + body;
        match ending
        case Complete =>
          if hash(all) != expected then (f.(part := None), Err(AttemptError(true)))
          else (Files(Some(all), None), Ok(|all|))
        case Stalled => (f.(part := Some(Start(f, status) + body[..Min(flushed, |body|)])), Err(AttemptError(true)))
        case Broken(transport) =>
          (f.(part := Some(Start(f, status) + body[..Min(flushed, |body|)])), Err(AttemptError(transport)))
  }

  /** `fetch_blob_to_file`, on a script of answers; how many it used up is part of the result. */
  function Fetch(hash: Bytes -> Digest, expected: Digest, f: Files, answers: seq<Answer>, attempt: nat)
    : (Files, Result<nat, AttemptError>, nat)
    requires attempt < MAX_FETCH_ATTEMPTS <= attempt + |answers|
    decreases |answers|
  {
    var (f', r) := Attempt(hash, expected, f, answers[0]);
    if r.Ok? || !r.error.retryable || attempt + 1 >= MAX_FETCH_ATTEMPTS then (f', r, attempt + 1)
    else Fetch(hash, expected, f', answers[1..], attempt + 1)
  }

  // --- the code ---------------------------------------------------------------------

  /** Hashes and counts what it writes; the hasher's state is the bytes it has been fed. */
  class HashingWriter {
    var file: Bytes
    var hashed: Bytes
    var written: nat

    /** Resume over `prefix` bytes already hashed, appending to `start`. */
    constructor (start: Bytes, prefix: Bytes, count: nat)
      ensures file == start && hashed == prefix && written == count
    {
      file, hashed, written := start, prefix, count;
    }

    method WriteAll(chunk: Bytes)
      modifies this
      ensures file == old(file) + chunk && hashed == old(hashed) + chunk && written == old(written) + |chunk|
    {
      file := file + chunk;
      hashed := hashed + chunk;
      written := written + |chunk|;
    }

    method WriteChunks(chunks: seq<Bytes>)
      modifies this
      ensures file == old(file) + Concat(chunks) && hashed == old(hashed) + Concat(chunks)
      ensures written == old(written) + |Concat(chunks)|
    {
      for i := 0 to |chunks|
        invariant file == old(file) + Concat(chunks[..i]) && hashed == old(hashed) + Concat(chunks[..i])
        invariant written == old(written) + |Concat(chunks[..i])|
      {
        ConcatNext(chunks, i);
        WriteAll(chunks[i]);
      }
      assert chunks[..|chunks|] == chunks;
    }

    method Finish(hash: Bytes -> Digest) returns (actual: Digest, total: nat)
      ensures actual == hash(hashed) && total == written
    {
      return hash(hashed), written;
    }
  }

  class Download {
    var dest: Option<Bytes>
    var part: Option<Bytes>

    ghost function View(): Files
      reads this
    {
      Files(dest, part)
    }

    constructor (files: Files)
      ensures View() == files
    {
      dest, part := files.dest, files.part;
    }

    /** Re-hash the leftover in blocks before appending to it. */
    method HashPrefix(block: nat) returns (hashed: Bytes, count: nat)
      requires block > 0
      ensures hashed == Leftover(View()) && count == |hashed|
    {
      var bytes := if part.Some? then part.value else [];
      hashed, count := [], 0;
      while count < |bytes|
        invariant count <= |bytes| && hashed == bytes[..count]
      {
        var n := Min(block, |bytes| - count);
        hashed := hashed + bytes[count..count + n];
        count := count + n;
      }
    }

    method FetchBlobAttempt(hash: Bytes -> Digest, expected: Digest, a: Answer) returns (r: Result<nat, AttemptError>)
      modifies this
      ensures (View(), r) == Attempt(hash, expected, old(View()), a)
    {
      if a.NoResponse? {
        return Err(AttemptError(a.transport));
      }
      if a.status == RANGE_NOT_SATISFIABLE {
        part := None;
        return Err(AttemptError(true));
      }
      if !Success(a.status) {
        return Err(AttemptError(a.status == TOO_MANY_REQUESTS || ServerError(a.status)));
      }
      var append := a.status == PARTIAL_CONTENT && part.Some? && part.value != [];
      var prefix, count := [], 0;
      if append {
        prefix, count := HashPrefix(65536);
      }
      var writer := new HashingWriter(if append then part.value else [], prefix, count);
      ghost var start, body := Start(View(), a.status), Concat(a.chunks);
      writer.WriteChunks(a.chunks);
      if a.ending != Complete {
        var n := Min(a.flushed, |writer.file| - count);
        assert writer.file[..count + n] == start + body[..n];
        part := Some(writer.file[..count + n]);
        return Err(AttemptError(a.ending.Stalled? || a.ending.transport));
      }
      var actual, total := writer.Finish(hash);
      if actual != expected {
        part := None;
        return Err(AttemptError(true));
      }
      dest, part := Some(writer.file), None;
      return Ok(total);
    }

    /** Skip when the blob is there; otherwise try, and retry what is worth retrying. */
    method FetchBlobToFile(hash: Bytes -> Digest, expected: Digest, answers: seq<Answer>)
      returns (r: Result<nat, AttemptError>, used: nat)
      requires |answers| >= MAX_FETCH_ATTEMPTS
      modifies this
      ensures old(dest).Some? ==> View() == old(View()) && r == Ok(|old(dest).value|) && used == 0
      ensures old(dest).None? ==> (View(), r, used) == Fetch(hash, expected, old(View()), answers, 0)
    {
      if dest.Some? {
        return Ok(|dest.value|), 0;
      }
      used := 0;
      while true
        invariant used < MAX_FETCH_ATTEMPTS && old(dest).None?
        invariant Fetch(hash, expected, old(View()), answers, 0) == Fetch(hash, expected, View(), answers[used..], used)
        decreases MAX_FETCH_ATTEMPTS - used
      {
        r := FetchBlobAttempt(hash, expected, answers[used]);
        assert answers[used..][1..] == answers[used + 1..];
        used := used + 1;
        if r.Ok? || !r.error.retryable || used >= MAX_FETCH_ATTEMPTS {
          return;
        }
      }
    }
  }

  // --- nothing but the blob is ever published ------------------------------------------

  /**
   * Whatever the registry sends: success publishes bytes with the requested digest and
   * returns their length, failure publishes nothing, and at most four requests are made.
   */
  lemma {:induction false} PublishesOnlyVerified(hash: Bytes -> Digest, expected: Digest, f: Files,
                                                 answers: seq<Answer>, attempt: nat)
    requires attempt < MAX_FETCH_ATTEMPTS <= attempt + |answers|
    ensures var (z, r, used) := Fetch(hash, expected, f, answers, attempt);
            && attempt < used <= 4
            && (r.Ok? ==> z.dest.Some? && hash(z.dest.value) == expected && r.value == |z.dest.value| && z.part.None?)
            && (r.Err? ==> z.dest == f.dest && (r.error.retryable ==> used == 4))
    decreases |answers|
  {
    var (f', r) := Attempt(hash, expected, f, answers[0]);
    if r.Err? && r.error.retryable && attempt + 1 < MAX_FETCH_ATTEMPTS {
      PublishesOnlyVerified(hash, expected, f', answers[1..], attempt + 1);
    }
  }

  // --- a registry that serves the blob ---------------------------------------------------

  /** The leftover is a prefix of the blob. */
  ghost predicate Resumable(f: Files, blob: Bytes) {
    Leftover(f) <= blob
  }

  /** The bytes of `blob` from `n` on. */
  function From(blob: Bytes, n: nat): Bytes {
    if n <= |blob| then blob[n..] else []
  }

  /**
   * An answer of a registry serving `blob`, to the request these files make. A request with
   * a leftover asks for the bytes behind it: a 206 sends those, any other success the blob
   * from its start. A body may stop early; one that ends by itself is whole.
   */
  ghost predicate Serves(f: Files, a: Answer, blob: Bytes) {
    a.Response? && 200 <= a.status < 300 ==>
      && (a.status == 206 ==> Leftover(f) != [])
      && var due := if a.status == 206 then From(blob, |Leftover(f)|) else blob;
         Concat(a.chunks) <= due && (a.ending == Complete ==> Concat(a.chunks) == due)
  }

  /** Against such a registry the leftover stays a prefix of the blob, and a body that arrives whole is the blob. */
  lemma ServedAttempt(hash: Bytes -> Digest, f: Files, a: Answer, blob: Bytes)
    requires Resumable(f, blob) && Serves(f, a, blob)
    ensures var (z, r) := Attempt(hash, hash(blob), f, a);
            && Resumable(z, blob)
            && (r.Ok? ==> z.dest == Some(blob))
            && (a.Response? && Success(a.status) && a.ending == Complete ==> r == Ok(|blob|))
  {
    if a.Response? && Success(a.status) {
      var start, body := if a.status == 206 then Leftover(f) else [], Concat(a.chunks);
      AttemptIs(hash, hash(blob), f, a);
      assert blob == start + From(blob, |start|);
      if a.ending == Complete {
        assert start + body == blob;
      } else {
        assert start + body[..Min(a.flushed, |body|)] <= blob;
      }
    }
  }

  // --- one attempt, told by the files and the answer ---------------------------------------

  /**
   * What an attempt does, status by status. A 206 to a request that resumed appends to the
   * leftover and every other success starts over; a body that ends is published if the file
   * has the digest and thrown away if not; one that stops leaves what was flushed of it.
   */
  lemma AttemptIs(hash: Bytes -> Digest, expected: Digest, f: Files, a: Answer)
    ensures var (z, r) := Attempt(hash, expected, f, a);
            match a
            case NoResponse(transport) => z == f && r == Err(AttemptError(transport))
            case Response(status, chunks, ending, flushed) =>
              var body := Concat(chunks);
              var base := if status == 206 && f.part.Some? then f.part.value else [];
              if status == 416 then z == f.(part := None) && r == Err(AttemptError(true))
              else if !(200 <= status < 300) then
                z == f && r == Err(AttemptError(status == 429 || 500 <= status < 600))
              else if ending == Complete then
                if hash(base + body) == expected
                then z == Files(Some(base + body), None) && r == Ok(|base| + |body|)
                else z == f.(part := None) && r == Err(AttemptError(true))
              else
                && z.dest == f.dest && z.part.Some? && base <= z.part.value <= base + body
                && |z.part.value| == |base| + Min(flushed, |body|)
                && r == Err(AttemptError(ending.Stalled? || ending.transport))
  {
  }

  /** A whole 206 over a leftover that is a prefix of the blob completes and publishes it. */
  lemma ResumePublishes(hash: Bytes -> Digest, leftover: Bytes, body: seq<Bytes>, flushed: nat, dest: Option<Bytes>)
    requires leftover != []
    ensures var blob := leftover + Concat(body);
            Attempt(hash, hash(blob), Files(dest, Some(leftover)), Response(206, body, Complete, flushed))
            == (Files(Some(blob), None), Ok(|blob|))
  {
    AttemptIs(hash, hash(leftover + Concat(body)), Files(dest, Some(leftover)), Response(206, body, Complete, flushed));
  }

  /** A leftover the registry cannot continue is dropped, and the whole body it sends next is published. */
  lemma RefusedRangeHeals(hash: Bytes -> Digest, f: Files, a: Answer, body: seq<Bytes>, flushed: nat)
    requires a.Response? && a.status == 416
    ensures var f' := Attempt(hash, hash(Concat(body)), f, a).0;
            Attempt(hash, hash(Concat(body)), f', Response(200, body, Complete, flushed))
            == (Files(Some(Concat(body)), None), Ok(|Concat(body)|))
  {
    var f' := Attempt(hash, hash(Concat(body)), f, a).0;
    AttemptIs(hash, hash(Concat(body)), f', Response(200, body, Complete, flushed));
    assert [] + Concat(body) == Concat(body);
  }

  /** Every answer of the script serves the blob, to the request it meets. */
  ghost predicate ServesAll(hash: Bytes -> Digest, f: Files, answers: seq<Answer>, blob: Bytes)
    decreases |answers|
  {
    answers != [] ==>
      Serves(f, answers[0], blob) && ServesAll(hash, Attempt(hash, hash(blob), f, answers[0]).0, answers[1..], blob)
  }

  /** Over a whole download the leftover is always a prefix of the blob, and success publishes the blob itself. */
  lemma {:induction false} ServedFetch(hash: Bytes -> Digest, f: Files, answers: seq<Answer>, attempt: nat, blob: Bytes)
    requires attempt < MAX_FETCH_ATTEMPTS <= attempt + |answers|
    requires Resumable(f, blob) && ServesAll(hash, f, answers, blob)
    ensures var (z, r, used) := Fetch(hash, hash(blob), f, answers, attempt);
            Resumable(z, blob) && (r.Ok? ==> z.dest == Some(blob) && r.value == |blob|)
    decreases |answers|
  {
    ServedAttempt(hash, f, answers[0], blob);
    var (f', r) := Attempt(hash, hash(blob), f, answers[0]);
    if r.Err? && r.error.retryable && attempt + 1 < MAX_FETCH_ATTEMPTS {
      ServedFetch(hash, f', answers[1..], attempt + 1, blob);
    }
  }

  /** The body arrives whole. */
  predicate Arrives(a: Answer) {
    a.Response? && Success(a.status) && a.ending == Complete
  }

  /** The registry, the transport or a stall stopped the attempt in a way worth another. */
  predicate WorthRetrying(a: Answer) {
    match a
    case NoResponse(transport) => transport
    case Response(status, _, ending, _) =>
      || status == RANGE_NOT_SATISFIABLE || status == TOO_MANY_REQUESTS || ServerError(status)
      || (Success(status) && (ending.Stalled? || (ending.Broken? && ending.transport)))
  }

  /** The first answer that is not worth a retry is a whole body, and comes within the attempts left. */
  ghost predicate Delivers(answers: seq<Answer>, attempt: nat) {
    exists i :: 0 <= i < |answers| && attempt + i < MAX_FETCH_ATTEMPTS && Arrives(answers[i])
                && forall j :: 0 <= j < i ==> WorthRetrying(answers[j])
  }

  lemma DeliversStep(answers: seq<Answer>, attempt: nat)
    requires answers != [] && attempt < MAX_FETCH_ATTEMPTS
    ensures Delivers(answers, attempt)
            <==> Arrives(answers[0]) || (WorthRetrying(answers[0]) && Delivers(answers[1..], attempt + 1))
  {
    var rest := answers[1..];
    if i :| 0 <= i < |answers| && attempt + i < MAX_FETCH_ATTEMPTS && Arrives(answers[i])
            && forall j :: 0 <= j < i ==> WorthRetrying(answers[j])
    {
      if i > 0 {
        assert Arrives(rest[i - 1]) && forall j :: 0 <= j < i - 1 ==> WorthRetrying(rest[j]);
      }
    }
    if i :| WorthRetrying(answers[0]) && 0 <= i < |rest| && attempt + 1 + i < MAX_FETCH_ATTEMPTS && Arrives(rest[i])
            && forall j :: 0 <= j < i ==> WorthRetrying(rest[j])
    {
      assert Arrives(answers[i + 1]);
      forall j | 0 <= j < i + 1 ensures WorthRetrying(answers[j]) {
        if j > 0 { assert rest[j - 1] == answers[j]; }
      }
    }
  }

  lemma ServedAttemptIff(hash: Bytes -> Digest, f: Files, a: Answer, blob: Bytes)
    requires Resumable(f, blob) && Serves(f, a, blob)
    ensures var r := Attempt(hash, hash(blob), f, a).1;
            (r.Ok? <==> Arrives(a)) && (r.Err? ==> (r.error.retryable <==> WorthRetrying(a)))
  {
    ServedAttempt(hash, f, a, blob);
    AttemptIs(hash, hash(blob), f, a);
  }

  /**
   * Against a registry that serves the blob, the download succeeds exactly when some answer
   * within the attempts is a whole body and every earlier one was worth a retry.
   */
  lemma {:induction false} ServedFetchSucceedsIff(hash: Bytes -> Digest, f: Files, answers: seq<Answer>, attempt: nat,
                                                  blob: Bytes)
    requires attempt < MAX_FETCH_ATTEMPTS <= attempt + |answers|
    requires Resumable(f, blob) && ServesAll(hash, f, answers, blob)
    ensures Fetch(hash, hash(blob), f, answers, attempt).1.Ok? <==> Delivers(answers, attempt)
    decreases |answers|
  {
    ServedAttempt(hash, f, answers[0], blob);
    ServedAttemptIff(hash, f, answers[0], blob);
    DeliversStep(answers, attempt);
    var (f', r) := Attempt(hash, hash(blob), f, answers[0]);
    if r.Err? && r.error.retryable && attempt + 1 < MAX_FETCH_ATTEMPTS {
      ServedFetchSucceedsIff(hash, f', answers[1..], attempt + 1, blob);
    }
  }

  /**
   * A spoiled leftover heals: a resumed body that completes to the wrong digest is
   * thrown away, and the next body that arrives whole is published.
   */
  lemma SpoiledLeftoverHeals(hash: Bytes -> Digest, f: Files, first: Answer, second: Answer, blob: Bytes)
    requires first.Response? && Success(first.status) && first.ending == Complete
    requires Attempt(hash, hash(blob), f, first).1.Err?
    requires var f' := Attempt(hash, hash(blob), f, first).0;
             Serves(f', second, blob) && second.Response? && Success(second.status) && second.ending == Complete
    ensures var f' := Attempt(hash, hash(blob), f, first).0;
            Attempt(hash, hash(blob), f', second) == (Files(Some(blob), None), Ok(|blob|))
  {
    var f' := Attempt(hash, hash(blob), f, first).0;
    assert Leftover(f') == [];
    ServedAttempt(hash, f', second, blob);
  }
}
