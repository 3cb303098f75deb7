/** Unpacking layer blobs, with the by-blob sidecar that remembers their diffIDs. */
module LayerCache {
  import opened Common

  type Digest = string

  /** How a media type is decompressed; the diffID is the hash of what comes out. */
  datatype Codec = Gzip | Zstd | Plain

  /** What a fresh unpack of a blob computes; None when it fails. */
  type Unpack = (Digest, Codec) -> Option<Digest>

  /**
   * A layer directory: bearing the completion marker, with the diffID of its content;
   * unmarked with something in it; or empty, which is what a rename may replace.
   */
  datatype Dir = Marked(content: Digest) | Partial | Empty

  datatype State = State(layers: map<Digest, Dir>, sidecar: map<Digest, Digest>)

  datatype Failure = UnpackFailed | NotPlaced | DiffIdMismatch

  predicate Complete(s: State, d: Digest) {
    d in s.layers && s.layers[d].Marked?
  }

  /** Nothing at that name that would stop a rename. */
  predicate Vacant(s: State, d: Digest) {
    d !in s.layers || s.layers[d].Empty?
  }

  /** `unpack_layer` into directory `dest`: staged, then renamed in one step or not at all. */
  function UnpackInto(s: State, unpack: Unpack, b: Digest, c: Codec, dest: Digest): (State, Result<Digest, Failure>) {
    var out := unpack(b, c);
    if out.None? then (s, Err(UnpackFailed))
    else if Vacant(s, dest) then (s.(layers := s.layers[dest := Marked(out.value)]), Ok(out.value))
    else if Complete(s, dest) then (s, Ok(out.value))
    else (s, Err(NotPlaced))
  }

  /** `ensure_layer_unpacked` as a step on the state. */
  function Ensure(s: State, unpack: Unpack, b: Digest, c: Codec): (State, Result<Digest, Failure>) {
    if b in s.sidecar then
      var cached := s.sidecar[b];
      if Complete(s, cached) then (s, Ok(cached))
      else
        var (s', r) := UnpackInto(s, unpack, b, c, cached);
        if r.Ok? && r.value != cached then (s', Err(DiffIdMismatch)) else (s', r)
    else
      var out := unpack(b, c);
      if out.None? then (s, Err(UnpackFailed))
      else
        var d := out.value;
        if Vacant(s, d) then (State(s.layers[d := Marked(d)], s.sidecar[b := d]), Ok(d))
        else if Complete(s, d) then (s.(sidecar := s.sidecar[b := d]), Ok(d))
        else (s, Err(NotPlaced))
  }

  class Layers {
    var layers: map<Digest, Dir>
    var sidecar: map<Digest, Digest>

    ghost function View(): State
      reads this
    {
      State(layers, sidecar)
    }

    constructor ()
      ensures View() == State(map[], map[])
    {
      layers, sidecar := map[], map[];
    }

    method UnpackLayer(unpack: Unpack, b: Digest, c: Codec, dest: Digest) returns (r: Result<Digest, Failure>)
      modifies this`layers
      ensures (View(), r) == UnpackInto(old(View()), unpack, b, c, dest)
    {
      var out := unpack(b, c);
      if out.None? {
        return Err(UnpackFailed);
      }
      if dest !in layers || layers[dest].Empty? {
        layers := layers[dest := Marked(out.value)];
      } else if !layers[dest].Marked? {
        return Err(NotPlaced);
      }
      return Ok(out.value);
    }

    method EnsureLayerUnpacked(unpack: Unpack, b: Digest, c: Codec) returns (r: Result<Digest, Failure>)
      modifies this
      ensures (View(), r) == Ensure(old(View()), unpack, b, c)
    {
      if b in sidecar {
        var cached := sidecar[b];
        if cached in layers && layers[cached].Marked? {
          return Ok(cached);
        }
        r := UnpackLayer(unpack, b, c, cached);
        if r.Ok? && r.value != cached {
          return Err(DiffIdMismatch);
        }
        return r;
      }
      // The unpack lands in a directory of its own, which is then renamed or dropped.
      var out := unpack(b, c);
      if out.None? {
        return Err(UnpackFailed);
      }
      var d := out.value;
      if d !in layers || layers[d].Empty? {
        layers := layers[d := Marked(d)];
      } else if !layers[d].Marked? {
        return Err(NotPlaced);
      }
      sidecar := sidecar[b := d];
      return Ok(d);
    }

    method RemoveLayer(d: Digest)
      modifies this`layers
      ensures View() == Drop(old(View()), d) && layers == old(layers) - {d} && sidecar == old(sidecar)
    {
      layers := layers - {d};
    }
  }

  /** `remove_layer`, and the layer collection of the image store: the sidecar stays. */
  function Drop(s: State, d: Digest): State {
    s.(layers := s.layers - {d})
  }

  // --- the cache never changes the answer ---------------------------------

  /** A marked directory that does not hold what its name promises. */
  predicate Bad(s: State, d: Digest) {
    Complete(s, d) && s.layers[d].content != d
  }

  /** Every complete directory holds the content its name promises. */
  ghost predicate Genuine(s: State) {
    forall d :: !Bad(s, d)
  }

  /** The sidecar remembers what unpacking under `codec` computes. */
  ghost predicate Remembers(s: State, unpack: Unpack, codec: Digest -> Codec) {
    forall b :: b in s.sidecar ==> unpack(b, codec(b)) == Some(s.sidecar[b])
  }

  datatype Op = Use(blob: Digest) | Remove(layer: Digest) | Interrupted(layer: Digest, left: Dir)

  /**
   * A step of a run in which each blob comes with one media type. An interrupted deletion
   * leaves whatever it had not got to: an empty directory, an unmarked one, or one that
   * has lost files and kept its marker.
   */
  function Step(s: State, unpack: Unpack, codec: Digest -> Codec, op: Op): State {
    match op
    case Use(b) => Ensure(s, unpack, b, codec(b)).0
    case Remove(d) => Drop(s, d)
    case Interrupted(d, left) => s.(layers := s.layers[d := left])
  }

  function Steps(s: State, unpack: Unpack, codec: Digest -> Codec, ops: seq<Op>): State
    decreases |ops|
  {
    if ops == [] then s else Steps(Step(s, unpack, codec, ops[0]), unpack, codec, ops[1..])
  }

  // --- one call, from any state -------------------------------------------

  /** A success is the fresh answer, and its directory is there, complete and genuine. */
  predicate Right(z: State, r: Result<Digest, Failure>, expected: Option<Digest>) {
    r.Ok? ==> expected == Some(r.value) && Complete(z, r.value) && !Bad(z, r.value)
  }

  /**
   * The call relies on a marked directory it should not: one the sidecar names against this
   * media type, or one of other content under the right name.
   */
  predicate TrustsBad(s: State, unpack: Unpack, b: Digest, c: Codec) {
    if b in s.sidecar then
      Complete(s, s.sidecar[b]) && (unpack(b, c) != Some(s.sidecar[b]) || Bad(s, s.sidecar[b]))
    else unpack(b, c).Some? && Bad(s, unpack(b, c).value)
  }

  /** The call fills a vacant directory named by the sidecar with what another media type unpacks to. */
  predicate Poisons(s: State, unpack: Unpack, b: Digest, c: Codec) {
    && b in s.sidecar && Vacant(s, s.sidecar[b])
    && unpack(b, c).Some? && unpack(b, c) != Some(s.sidecar[b])
  }

  /** The remembered answer is not what this media type computes, and the code does not notice in time. */
  predicate Misled(s: State, unpack: Unpack, b: Digest, c: Codec) {
    && b in s.sidecar && unpack(b, c) != Some(s.sidecar[b])
    && (Complete(s, s.sidecar[b]) || (Vacant(s, s.sidecar[b]) && unpack(b, c).Some?))
  }

  /**
   * One call with any media type, from any state at all. Its answer and the directory it
   * answers with are right exactly when it does not trust a bad directory; it turns a
   * directory bad exactly when it poisons one. From a genuine state both go well exactly
   * when the sidecar, which is keyed by blob alone, does not mislead it.
   */
  lemma EnsureRightIff(s: State, unpack: Unpack, b: Digest, c: Codec)
    ensures var (z, r) := Ensure(s, unpack, b, c);
            && (Right(z, r, unpack(b, c)) <==> !TrustsBad(s, unpack, b, c))
            && ((forall d :: Bad(z, d) ==> Bad(s, d)) <==> !Poisons(s, unpack, b, c))
            && (Genuine(s) ==>
                  (Right(z, r, unpack(b, c)) && Genuine(z) <==> !Misled(s, unpack, b, c)))
  {
    var (z, r) := Ensure(s, unpack, b, c);
    if Poisons(s, unpack, b, c) {
      assert Bad(z, s.sidecar[b]);
    }
  }

  /** The sidecar, if it knows the blob, knows what this media type unpacks it to. */
  predicate Truthful(s: State, unpack: Unpack, b: Digest, c: Codec) {
    b in s.sidecar ==> unpack(b, c) == Some(s.sidecar[b])
  }

  /**
   * With a truthful sidecar a call succeeds exactly when the blob unpacks and the directory
   * named by its diffID is missing, empty or marked. The answer is that diffID, the sidecar
   * knows it then, a directory that was missing or empty holds it, and nothing else changes.
   * A blob that does not unpack and a directory with something unmarked in it are the two
   * ways to fail, and then nothing changes at all.
   */
  lemma EnsureSucceedsIff(s: State, unpack: Unpack, b: Digest, c: Codec)
    requires Truthful(s, unpack, b, c)
    ensures var (z, r) := Ensure(s, unpack, b, c);
            match unpack(b, c)
            case None => z == s && r == Err(UnpackFailed)
            case Some(d) =>
              if d in s.layers && s.layers[d] == Partial then z == s && r == Err(NotPlaced)
              else
                && r == Ok(d) && z.sidecar == s.sidecar[b := d]
                && d in z.layers && z.layers[d].Marked?
                && (d !in s.layers || s.layers[d] == Empty ==> z.layers[d] == Marked(d))
                && (d in s.layers && s.layers[d].Marked? ==> z.layers[d] == s.layers[d])
                && z.layers.Keys == s.layers.Keys + {d}
                && (forall x :: x in s.layers && x != d ==> z.layers[x] == s.layers[x])
  {
    if b in s.sidecar { assert s.sidecar[b := s.sidecar[b]] == s.sidecar; }
  }

  /** The first unpack into an empty store succeeds for every blob that unpacks. */
  lemma FirstUnpackSucceeds(unpack: Unpack, b: Digest, c: Codec)
    requires unpack(b, c).Some?
    ensures var d := unpack(b, c).value;
            Ensure(State(map[], map[]), unpack, b, c) == (State(map[d := Marked(d)], map[b := d]), Ok(d))
  {
    EnsureSucceedsIff(State(map[], map[]), unpack, b, c);
  }

  /**
   * With a sidecar that remembers another diffID the call relies on that one: a marked
   * directory of its name is the answer, a missing or empty one is filled before the
   * mismatch is noticed, and the sidecar keeps its entry throughout.
   */
  lemma EnsureMisremembered(s: State, unpack: Unpack, b: Digest, c: Codec)
    requires b in s.sidecar && unpack(b, c) != Some(s.sidecar[b])
    ensures var (z, r) := Ensure(s, unpack, b, c);
            var x := s.sidecar[b];
            && z.sidecar == s.sidecar
            && if x in s.layers && s.layers[x].Marked? then z == s && r == Ok(x)
               else if unpack(b, c).None? then z == s && r == Err(UnpackFailed)
               else if x in s.layers && s.layers[x] == Partial then z == s && r == Err(NotPlaced)
               else z.layers == s.layers[x := Marked(unpack(b, c).value)] && r == Err(DiffIdMismatch)
  {
  }

  // --- runs ---------------------------------------------------------------

  /** The op takes the directory away, or leaves something else there. */
  predicate Clears(op: Op, d: Digest) {
    (op.Remove? || op.Interrupted?) && op.layer == d
  }

  /** The op leaves the marker over other content. */
  predicate Tears(op: Op, d: Digest) {
    op.Interrupted? && op.layer == d && op.left.Marked? && op.left.content != d
  }

  /** The last deletion of `d` in the run was interrupted with the marker still there and content gone. */
  ghost predicate LeftTorn(ops: seq<Op>, d: Digest) {
    exists i :: 0 <= i < |ops| && Tears(ops[i], d) && Untouched(ops[i + 1..], d)
  }

  ghost predicate Untouched(ops: seq<Op>, d: Digest) {
    forall op :: op in ops ==> !Clears(op, d)
  }

  /** One step keeps the sidecar truthful, and a directory is bad after it exactly when it was torn or left so. */
  lemma StepIs(s: State, unpack: Unpack, codec: Digest -> Codec, op: Op, d: Digest)
    requires Remembers(s, unpack, codec)
    ensures var z := Step(s, unpack, codec, op);
            Remembers(z, unpack, codec) && (Bad(z, d) <==> Tears(op, d) || (Bad(s, d) && !Clears(op, d)))
  {
  }

  lemma LeftTornCons(op: Op, rest: seq<Op>, d: Digest)
    ensures LeftTorn([op] + rest, d) <==> LeftTorn(rest, d) || (Tears(op, d) && Untouched(rest, d))
  {
    var ops := [op] + rest;
    if i :| 0 <= i < |ops| && Tears(ops[i], d) && Untouched(ops[i + 1..], d) {
      if i == 0 {
        assert ops[1..] == rest;
      } else {
        assert ops[i + 1..] == rest[i..];
        assert Tears(rest[i - 1], d) && Untouched(rest[i - 1 + 1..], d);
      }
    }
    if i :| 0 <= i < |rest| && Tears(rest[i], d) && Untouched(rest[i + 1..], d) {
      assert ops[i + 1 + 1..] == rest[i + 1..] && ops[i + 1] == rest[i];
    }
    if Tears(op, d) && Untouched(rest, d) {
      assert ops[0] == op && ops[0 + 1..] == rest;
    }
  }

  /** After any run: the sidecar is truthful, and a directory is bad exactly when it was left torn. */
  lemma {:induction false} StepsKeep(s: State, unpack: Unpack, codec: Digest -> Codec, ops: seq<Op>, d: Digest)
    requires Remembers(s, unpack, codec)
    ensures var z := Steps(s, unpack, codec, ops);
            Remembers(z, unpack, codec) && (Bad(z, d) <==> LeftTorn(ops, d) || (Bad(s, d) && Untouched(ops, d)))
    decreases |ops|
  {
    if ops != [] {
      var op, rest := ops[0], ops[1..];
      assert ops == [op] + rest;
      StepIs(s, unpack, codec, op, d);
      StepsKeep(Step(s, unpack, codec, op), unpack, codec, rest, d);
      LeftTornCons(op, rest, d);
    }
  }

  /**
   * After any run of unpacks and whole or interrupted deletions, a successful unpack returns
   * the diffID a fresh one computes, and a marked directory of that name is there. It holds
   * that content exactly when it was not left torn.
   */
  lemma CacheNeverLies(unpack: Unpack, codec: Digest -> Codec, ops: seq<Op>, b: Digest)
    ensures var s := Steps(State(map[], map[]), unpack, codec, ops);
            var (z, r) := Ensure(s, unpack, b, codec(b));
            r.Ok? ==> && unpack(b, codec(b)) == Some(r.value) && Complete(z, r.value)
                      && (z.layers[r.value] == Marked(r.value) <==> !LeftTorn(ops, r.value))
  {
    var s := Steps(State(map[], map[]), unpack, codec, ops);
    var (z, r) := Ensure(s, unpack, b, codec(b));
    if r.Ok? {
      StepsKeep(State(map[], map[]), unpack, codec, ops, r.value);
      StepIs(s, unpack, codec, Use(b), r.value);
    }
  }

  ghost predicate GenuineThroughout(s: State, unpack: Unpack, codec: Digest -> Codec, ops: seq<Op>)
    decreases |ops|
  {
    Genuine(s) && (ops != [] ==> GenuineThroughout(Step(s, unpack, codec, ops[0]), unpack, codec, ops[1..]))
  }

  /** Every state of a run is genuine exactly when no deletion leaves its marker over other content. */
  lemma {:induction false} GenuineThroughoutIff(s: State, unpack: Unpack, codec: Digest -> Codec, ops: seq<Op>)
    requires Genuine(s) && Remembers(s, unpack, codec)
    ensures GenuineThroughout(s, unpack, codec, ops)
            <==> forall op :: op in ops && op.Interrupted? ==> !Tears(op, op.layer)
    decreases |ops|
  {
    if ops != [] {
      var op, rest := ops[0], ops[1..];
      var z := Step(s, unpack, codec, op);
      assert ops == [op] + rest;
      StepGenuineIff(s, unpack, codec, op);
      if Genuine(z) {
        GenuineThroughoutIff(z, unpack, codec, rest);
      }
    }
  }

  lemma StepGenuineIff(s: State, unpack: Unpack, codec: Digest -> Codec, op: Op)
    requires Genuine(s) && Remembers(s, unpack, codec)
    ensures var z := Step(s, unpack, codec, op);
            Remembers(z, unpack, codec) && (Genuine(z) <==> !(op.Interrupted? && Tears(op, op.layer)))
  {
    var z := Step(s, unpack, codec, op);
    forall d ensures Bad(z, d) <==> Tears(op, d) { StepIs(s, unpack, codec, op, d); }
    if op.Interrupted? && Tears(op, op.layer) { assert Bad(z, op.layer); }
  }

  /** An unmarked directory with something in it stops every unpack of its content until it is deleted. */
  lemma {:induction false} PartialNeverHeals(s: State, unpack: Unpack, codec: Digest -> Codec, ops: seq<Op>,
                                             b: Digest, d: Digest)
    requires Remembers(s, unpack, codec) && d in s.layers && s.layers[d] == Partial && Untouched(ops, d)
    requires unpack(b, codec(b)) == Some(d)
    ensures var z := Steps(s, unpack, codec, ops);
            d in z.layers && z.layers[d] == Partial && Ensure(z, unpack, b, codec(b)) == (z, Err(NotPlaced))
    decreases |ops|
  {
    if ops != [] {
      assert ops[0] in ops;
      StepIs(s, unpack, codec, ops[0], d);
      PartialNeverHeals(Step(s, unpack, codec, ops[0]), unpack, codec, ops[1..], b, d);
    }
  }

  // --- inputs that fail ---------------------------------------------------

  /** One blob, two media types, one deletion: a directory is left complete under another layer's name. */
  lemma MediaTypeSwapPoisonsDirectory()
    ensures exists unpack: Unpack, s: State ::
              Genuine(s) && (exists codec: Digest -> Codec :: Remembers(s, unpack, codec))
              && !Genuine(Ensure(s, unpack, "b", Plain).0)
  {
    var unpack: Unpack := (b, c) => if c == Gzip then Some("x") else Some("y");
    var s := State(map[], map["b" := "x"]);
    var codec: Digest -> Codec := b => Gzip;
    assert Remembers(s, unpack, codec);
    var z := Ensure(s, unpack, "b", Plain).0;
    assert z.layers["x"] == Marked("y");
    assert Bad(z, "x");
    assert !Genuine(z);
  }

  /** The same through an empty directory an interrupted deletion left: the rename replaces it. */
  lemma EmptyDirectoryIsReplaced()
    ensures exists unpack: Unpack, s: State ::
              Genuine(s) && s.layers == map["x" := Empty] && !Genuine(Ensure(s, unpack, "b", Plain).0)
  {
    var unpack: Unpack := (b, c) => if c == Gzip then Some("x") else Some("y");
    var s := State(map["x" := Empty], map["b" := "x"]);
    var z := Ensure(s, unpack, "b", Plain).0;
    assert z.layers["x"] == Marked("y");
    assert Bad(z, "x");
    assert Genuine(s) && !Genuine(z);
  }

  /**
   * Unpack a layer and let its deletion die before the marker goes: after any run, the next
   * use of the blob answers with the directory as the deletion left it.
   */
  lemma MarkerLeftIsTrusted(unpack: Unpack, codec: Digest -> Codec, ops: seq<Op>, b: Digest, left: Digest)
    requires unpack(b, codec(b)).Some? && left != unpack(b, codec(b)).value
    ensures var d := unpack(b, codec(b)).value;
            var s := Step(Steps(State(map[], map[]), unpack, codec, ops), unpack, codec, Interrupted(d, Marked(left)));
            var (z, r) := Ensure(s, unpack, b, codec(b));
            r == Ok(d) && z.layers[d] == Marked(left) && !Right(z, r, unpack(b, codec(b)))
  {
    StepsKeep(State(map[], map[]), unpack, codec, ops, unpack(b, codec(b)).value);
  }
}
