/** What a crash inside an operation can leave, and what runs that go on after crashes keep. */
module ImageCrashes {
  import opened Common
  import opened ImageDisk
  import opened ImagePlan
  import opened ImageProofs
  import opened ImageRuns

  // --- crashes -----------------------------------------------------------

  /** Nothing lost, and no config digest doubling as a layer digest. */
  ghost predicate Whole(d: Disk) {
    Sound(d) && KindsApart(d.records)
  }

  /** Nothing is lost at any point of a plan, and the index is always one of two. */
  ghost predicate Safe(d: Disk, plan: seq<Write>, a: map<Tag, Id>, b: map<Tag, Id>)
    decreases |plan|
  {
    && Whole(d) && (d.index == a || d.index == b)
    && (plan != [] ==> Safe(Apply(d, plan[0]), plan[1..], a, b))
  }

  lemma {:induction false} SafeAppend(d: Disk, p: seq<Write>, q: seq<Write>, a: map<Tag, Id>, b: map<Tag, Id>)
    requires Safe(d, p, a, b) && Safe(Run(d, p), q, a, b)
    ensures Safe(d, p + q, a, b)
    decreases |p|
  {
    if p == [] {
      assert p + q == q;
    } else {
      assert (p + q)[1..] == p[1..] + q;
      SafeAppend(Apply(d, p[0]), p[1..], q, a, b);
    }
  }

  lemma {:induction false} SafePrefix(d: Disk, plan: seq<Write>, k: nat, a: map<Tag, Id>, b: map<Tag, Id>)
    requires Safe(d, plan, a, b) && k <= |plan|
    ensures var z := Run(d, plan[..k]); Whole(z) && (z.index == a || z.index == b)
    decreases |plan|
  {
    if k > 0 {
      assert plan[..k][1..] == plan[1..][..k - 1];
      SafePrefix(Apply(d, plan[0]), plan[1..], k - 1, a, b);
    }
  }

  lemma {:induction false} EvictSafe(d: Disk, id: Id, tags: seq<Tag>, b: map<Tag, Id>)
    requires Whole(d)
    ensures Safe(d, EvictPlan(d, d.index, id, tags), d.index, b)
    decreases |tags|
  {
    if tags != [] {
      var e := Eviction(d, d.index, id, tags[0]);
      if e.None? {
        EvictSafe(d, id, tags[1..], b);
      } else {
        assert RecordSound(d, d.index[tags[0]], d.records[d.index[tags[0]]]);
        var d' := Apply(d, WriteRecord(e.value));
        RetagWhole(d, e.value);
        EvictSafe(d', id, tags[1..], b);
        assert EvictPlan(d, d.index, id, tags)[1..] == EvictPlan(d', d.index, id, tags[1..]);
      }
    }
  }

  /** Writing a record whose content is there loses nothing. */
  lemma RewriteSound(d: Disk, r: Record)
    requires Sound(d) && RecordSound(d, r.id, r)
    ensures Sound(Apply(d, WriteRecord(r)))
  {
    var z := Apply(d, WriteRecord(r));
    forall n | n in z.records ensures RecordSound(z, n, z.records[n]) {
      if n in d.records { assert RecordSound(d, n, d.records[n]); }
    }
  }

  /** Rewriting the tags of a record loses nothing. */
  lemma RetagWhole(d: Disk, r: Record)
    requires Whole(d) && r.id in d.records && r == d.records[r.id].(tags := r.tags)
    ensures Whole(Apply(d, WriteRecord(r)))
  {
    assert RecordSound(d, r.id, d.records[r.id]);
    RewriteSound(d, r);
    KindsByContent(d.records, d.records[r.id], r);
    assert d.records[r.id := d.records[r.id]] == d.records;
  }

  lemma {:induction false} PutSafe(d: Disk, r: Record)
    requires Whole(d) && RecordSound(d, r.id, r) && KindsApart(d.records[r.id := r])
    ensures Safe(d, PutPlan(d, d.index, r), d.index, Bind(d.index, r.tags, r.id))
  {
    var b := Bind(d.index, r.tags, r.id);
    var d1 := Apply(d, WriteRecord(r));
    var evict := EvictPlan(d1, d.index, r.id, r.tags);
    RewriteSound(d, r);
    EvictSafe(d1, r.id, r.tags, b);
    PutEnds(d, r);
    PutKeepsSound(d, r);
    PutKeepsKindsApart(d, r);
    SafeEnd(d1, evict, d.index, b);
    SafeLast(Run(d1, evict), WriteIndex(b), d.index, b);
    SafeAppend(d1, evict, [WriteIndex(b)], d.index, b);
    SafeFirst(d, WriteRecord(r), evict + [WriteIndex(b)], d.index, b);
    assert PutPlan(d, d.index, r) == [WriteRecord(r)] + (evict + [WriteIndex(b)]);
  }

  /** The last write of a put completes it. */
  lemma PutEnds(d: Disk, r: Record)
    requires Sound(d)
    ensures var d1 := Apply(d, WriteRecord(r));
            Apply(Run(d1, EvictPlan(d1, d.index, r.id, r.tags)), WriteIndex(Bind(d.index, r.tags, r.id)))
            == PutResult(d, r)
  {
    var d1 := Apply(d, WriteRecord(r));
    SoundWellNamed(d);
    WellNamedWrite(d, r);
    EvictRun(d1, d.index, r.id, r.tags);
  }

  lemma SafeEnd(d: Disk, plan: seq<Write>, a: map<Tag, Id>, b: map<Tag, Id>)
    requires Safe(d, plan, a, b)
    ensures var z := Run(d, plan); Whole(z) && (z.index == a || z.index == b)
  {
    SafePrefix(d, plan, |plan|, a, b);
    assert plan[..|plan|] == plan;
  }

  lemma SafeFirst(d: Disk, w: Write, rest: seq<Write>, a: map<Tag, Id>, b: map<Tag, Id>)
    requires Whole(d) && (d.index == a || d.index == b) && Safe(Apply(d, w), rest, a, b)
    ensures Safe(d, [w] + rest, a, b)
  {
    assert ([w] + rest)[1..] == rest;
  }

  lemma {:induction false} ContentSafe(d: Disk, content: seq<Write>, r: Record, b: map<Tag, Id>)
    requires Whole(d) && ContentFor(content, r)
    ensures Safe(d, content, d.index, b)
    decreases |content|
  {
    if content != [] {
      var d' := Apply(d, content[0]);
      forall n | n in d'.records ensures RecordSound(d', n, d'.records[n]) {
        assert RecordSound(d, n, d.records[n]);
      }
      ContentSafe(d', content[1..], r, b);
    }
  }

  lemma {:induction false} LayersSafe(d: Disk, diffIds: seq<Digest>, a: map<Tag, Id>)
    requires Whole(d)
    ensures Safe(d, LayerPlan(UsedLayers(d.records), diffIds), a, d.index)
    decreases |diffIds|
  {
    var used := UsedLayers(d.records);
    if diffIds != [] && diffIds[0] in used {
      LayersSafe(d, diffIds[1..], a);
      assert LayerPlan(used, diffIds) == LayerPlan(used, diffIds[1..]);
    } else if diffIds != [] {
      var d' := Apply(d, RemoveLayer(diffIds[0]));
      forall n | n in d'.records ensures RecordSound(d', n, d'.records[n]) {
        assert RecordSound(d, n, d.records[n]);
        assert forall l :: l in d.records[n].diffIds ==> l in used;
      }
      LayersSafe(d', diffIds[1..], a);
      assert LayerPlan(used, diffIds)[1..] == LayerPlan(used, diffIds[1..]);
    }
  }

  lemma {:induction false} BlobsSafe(d: Disk, used: set<Digest>, blobs: seq<Digest>, a: map<Tag, Id>)
    requires Whole(d)
    requires forall n :: n in d.records ==> n !in blobs
    ensures Safe(d, BlobPlan(used, blobs), a, d.index)
    decreases |blobs|
  {
    if blobs != [] && blobs[0] in used {
      BlobsSafe(d, used, blobs[1..], a);
      assert BlobPlan(used, blobs) == BlobPlan(used, blobs[1..]);
    } else if blobs != [] {
      var d' := Apply(d, RemoveBlob(blobs[0]));
      forall n | n in d'.records ensures RecordSound(d', n, d'.records[n]) {
        assert RecordSound(d, n, d.records[n]);
      }
      BlobsSafe(d', used, blobs[1..], a);
      assert BlobPlan(used, blobs)[1..] == BlobPlan(used, blobs[1..]);
    }
  }

  lemma GcSafe(d: Disk, was: Record, a: map<Tag, Id>)
    requires Whole(d)
    requires forall n :: n in d.records ==> n !in was.layerBlobs
    ensures Safe(d, GcPlan(d, was), a, d.index)
  {
    var layers := LayerPlan(UsedLayers(d.records), was.diffIds);
    LayersSafe(d, was.diffIds, a);
    LayerRun(d, UsedLayers(d.records), was.diffIds);
    SafeEnd(d, layers, a, d.index);
    BlobsSafe(Run(d, layers), UsedBlobs(d.records), was.layerBlobs, a);
    SafeAppend(d, layers, BlobPlan(UsedBlobs(d.records), was.layerBlobs), a, d.index);
  }

  lemma DeleteSafe(d: Disk, index: map<Tag, Id>, r: Record)
    requires Whole(d) && r.id in d.records && DropsIndexOf(d, index, r.id)
    requires r.diffIds == d.records[r.id].diffIds && r.layerBlobs == d.records[r.id].layerBlobs
    ensures Safe(d, DeletePlan(d, index, r), d.index, index)
  {
    var d1 := Apply(d, WriteIndex(index));
    var e := Apply(d1, RemoveRecord(r.id));
    var rest := GcPlan(e, r) + [RemoveBlob(r.id)];
    UnindexSound(d, index, r.id);
    RemovedApart(d, r.id);
    ContentGoneSafe(e, r, d.index);
    SafeFirst(d1, RemoveRecord(r.id), rest, d.index, index);
    SafeFirst(d, WriteIndex(index), [RemoveRecord(r.id)] + rest, d.index, index);
    DeleteShape(d, index, r);
  }

  /** The plan of a deletion, its first two writes taken off. */
  lemma DeleteShape(d: Disk, index: map<Tag, Id>, r: Record)
    ensures var e := Apply(Apply(d, WriteIndex(index)), RemoveRecord(r.id));
            DeletePlan(d, index, r)
            == [WriteIndex(index)] + ([RemoveRecord(r.id)] + (GcPlan(e, r) + [RemoveBlob(r.id)]))
  {
    var e := Apply(Apply(d, WriteIndex(index)), RemoveRecord(r.id));
    assert GcPlan(e, r) == GcPlan(Apply(d, RemoveRecord(r.id)), r);
  }

  /** Once its record is gone, collecting an image's content is safe. */
  lemma ContentGoneSafe(e: Disk, r: Record, a: map<Tag, Id>)
    requires Whole(e) && r.id !in e.records && forall n :: n in e.records ==> n !in r.layerBlobs
    ensures Safe(e, GcPlan(e, r) + [RemoveBlob(r.id)], a, e.index)
  {
    var gc := GcPlan(e, r);
    GcSafe(e, r, a);
    GcRun(e, r);
    SafeEnd(e, gc, a, e.index);
    ConfigGoneSound(GcResult(e, r), r.id);
    SafeLast(Run(e, gc), RemoveBlob(r.id), a, e.index);
    SafeAppend(e, gc, [RemoveBlob(r.id)], a, e.index);
  }

  lemma ConfigGoneSound(g: Disk, id: Id)
    requires Sound(g) && id !in g.records
    ensures Sound(Apply(g, RemoveBlob(id)))
  {
    var z := Apply(g, RemoveBlob(id));
    forall n | n in z.records ensures RecordSound(z, n, z.records[n]) {
      assert RecordSound(g, n, g.records[n]);
    }
  }

  /** Taking a record's tags, and then the record, off the disk loses nothing. */
  lemma UnindexSound(d: Disk, index: map<Tag, Id>, id: Id)
    requires Sound(d) && DropsIndexOf(d, index, id)
    ensures Sound(d.(index := index)) && Sound(d.(index := index, records := d.records - {id}))
  {
    var d1, d2 := d.(index := index), d.(index := index, records := d.records - {id});
    forall n | n in d.records ensures RecordSound(d1, n, d.records[n]) && RecordSound(d2, n, d.records[n]) {
      assert RecordSound(d, n, d.records[n]);
    }
  }

  lemma RemovedApart(d: Disk, id: Id)
    requires Sound(d) && KindsApart(d.records) && id in d.records
    ensures forall n :: n in d.records ==> n !in d.records[id].layerBlobs
  {
    forall n | n in d.records ensures n !in d.records[id].layerBlobs {
      assert RecordSound(d, n, d.records[n]);
      assert d.records[n].id !in d.records[id].layerBlobs;
    }
  }

  lemma SafeLast(d: Disk, w: Write, a: map<Tag, Id>, b: map<Tag, Id>)
    requires Whole(d) && (d.index == a || d.index == b)
    requires Whole(Apply(d, w)) && (Apply(d, w).index == a || Apply(d, w).index == b)
    ensures Safe(d, [w], a, b)
  {
    assert Safe(Apply(d, w), [], a, b);
    assert [w][1..] == [];
  }

  lemma ReplaceSafe(e: Disk, r: Record)
    requires Whole(e) && RecordSound(e, r.id, Merged(e, r)) && KindsApart(e.records[r.id := Merged(e, r)])
    ensures Safe(e, ReplacePlan(e, r), e.index, ReplaceResult(e, r).index)
  {
    var m := Merged(e, r);
    var p := PutResult(e, m);
    PutSafe(e, m);
    SoundWellNamed(e);
    PutRun(e, m);
    if r.id in e.records {
      PutKeepsSound(e, m);
      PutKeepsKindsApart(e, m);
      ReplacedApart(e, m);
      GcSafe(p, e.records[r.id], e.index);
      SafeAppend(e, PutPlan(e, e.index, m), GcPlan(p, e.records[r.id]), e.index, p.index);
    }
  }

  lemma InstallSafe(d: Disk, r: Record, content: seq<Write>)
    requires Whole(d) && Installable(d, r, content)
    ensures var plan := Plan(d, Install(r, content)); Safe(d, plan, d.index, Run(d, plan).index)
  {
    var e := Run(d, content);
    SoundWellNamed(d);
    ContentKeepsSound(d, r, content);
    KindsByContent(d.records, r, Merged(e, r));
    ContentSafe(d, content, r, ReplaceResult(e, r).index);
    ReplaceSafe(e, r);
    SafeAppend(d, content, ReplacePlan(e, r), d.index, ReplaceResult(e, r).index);
    InstallRun(d, r, content);
  }

  lemma AddTagSafe(d: Disk, id: Id, t: Tag)
    requires Whole(d)
    ensures var plan := Plan(d, AddTag(id, t)); Safe(d, plan, d.index, Run(d, plan).index)
  {
    if id in d.records && t !in d.records[id].tags {
      var r := d.records[id].(tags := d.records[id].tags + [t]);
      assert RecordSound(d, id, d.records[id]);
      RetagWhole(d, r);
      SoundWellNamed(d);
      PutSafe(d, r);
      PutRun(d, r);
    }
  }

  /** An untag that leaves the record a tag: rewrite the record, then save a smaller index. */
  lemma {:induction false} UntagSafe(d: Disk, id: Id, t: Tag)
    requires Whole(d) && !Deletes(d, Untag(id, t))
    ensures var plan := Plan(d, Untag(id, t)); Safe(d, plan, d.index, Run(d, plan).index)
  {
    if id in d.records {
      assert RecordSound(d, id, d.records[id]);
      var r := d.records[id].(tags := Minus(d.records[id].tags, {t}));
      var index := Unbind(d.index, [t], id);
      var d1 := Apply(d, WriteRecord(r));
      RetagWhole(d, r);
      UntagRun(d, id, t);
      IndexLess(d1, index);
      SafeLast(d1, WriteIndex(index), d.index, index);
      SafeFirst(d, WriteRecord(r), [WriteIndex(index)], d.index, index);
      assert [WriteRecord(r)] + [WriteIndex(index)] == [WriteRecord(r), WriteIndex(index)];
    }
  }

  /** A smaller index loses nothing while the records stay. */
  lemma IndexLess(d: Disk, index: map<Tag, Id>)
    requires Whole(d) && forall t :: t in index ==> index[t] in d.records
    ensures Whole(Apply(d, WriteIndex(index)))
  {
    var z := Apply(d, WriteIndex(index));
    forall n | n in z.records ensures RecordSound(z, n, z.records[n]) { assert RecordSound(d, n, d.records[n]); }
  }

  lemma DeletionSafe(d: Disk, c: Command)
    requires Whole(d) && Deletes(d, c) && DropsAll(d, c)
    ensures Safe(d, Plan(d, c), d.index, Run(d, Plan(d, c)).index)
  {
    assert RecordSound(d, c.id, d.records[c.id]);
    var r, index := Deleted(d, c), Unbind(d.index, Dropped(d, c), c.id);
    DeletesPlan(d, c);
    DeleteSafe(d, index, r);
    DeleteRun(d, index, r);
  }

  /** Every prefix of the writes of an operation leaves a whole disk and one of two indexes. */
  lemma StepSafe(d: Disk, c: Command)
    requires Whole(d) && Legal(d, c) && DropsAll(d, c)
    ensures Safe(d, Plan(d, c), d.index, Run(d, Plan(d, c)).index)
  {
    if Deletes(d, c) {
      DeletionSafe(d, c);
    } else {
      match c
      case Install(r, content) => InstallSafe(d, r, content);
      case AddTag(id, t) => AddTagSafe(d, id, t);
      case Untag(id, t) => UntagSafe(d, id, t);
      case Remove(id) =>
    }
  }

  /**
   * A crash after any durable write of any operation: the index on disk is wholly
   * the old or wholly the new one, and fsck finds nothing lost.
   */
  lemma CrashLosesNothing(d: Disk, c: Command, k: nat)
    requires Whole(d) && Legal(d, c) && DropsAll(d, c) && k <= |Plan(d, c)|
    ensures var z := Run(d, Plan(d, c)[..k]);
            && (z.index == d.index || z.index == Run(d, Plan(d, c)).index)
            && KindsApart(z.records)
            && forall f :: Severe(f) ==> !Reports(z, f)
  {
    StepSafe(d, c);
    SafePrefix(d, Plan(d, c), k, d.index, Run(d, Plan(d, c)).index);
    SoundIffNothingSevere(Run(d, Plan(d, c)[..k]));
  }

  // --- a deletion that leaves a tag behind --------------------------------

  /** Writes that only take content away leave the records and the index alone. */
  lemma {:induction false} RemovalsRun(d: Disk, plan: seq<Write>)
    requires forall w :: w in plan ==> w.RemoveLayer? || w.RemoveBlob?
    ensures var z := Run(d, plan); z.records == d.records && z.index == d.index
    decreases |plan|
  {
    if plan != [] {
      assert plan[0] in plan;
      RemovalsRun(Apply(d, plan[0]), plan[1..]);
    }
  }

  /** Any prefix of a deletion that got as far as the record. */
  lemma DeleteCut(d: Disk, index: map<Tag, Id>, r: Record, k: nat)
    requires 2 <= k <= |DeletePlan(d, index, r)|
    ensures var z := Run(d, DeletePlan(d, index, r)[..k]); z.records == d.records - {r.id} && z.index == index
  {
    var d1 := Apply(d, WriteIndex(index));
    var e := Apply(d1, RemoveRecord(r.id));
    var rest := GcPlan(e, r) + [RemoveBlob(r.id)];
    DeleteShape(d, index, r);
    var cut := rest[..k - 2];
    assert DeletePlan(d, index, r)[..k] == [WriteIndex(index)] + ([RemoveRecord(r.id)] + cut);
    forall w | w in rest ensures w.RemoveLayer? || w.RemoveBlob? {
      if w in GcPlan(e, r) { GcWrites(e, r, w); }
    }
    assert forall w :: w in cut ==> w in rest;
    RemovalsRun(e, cut);
    RunAppend(d, [WriteIndex(index)], [RemoveRecord(r.id)] + cut);
    RunAppend(d1, [RemoveRecord(r.id)], cut);
    RunOne(d, WriteIndex(index));
    RunOne(d1, RemoveRecord(r.id));
  }

  /**
   * Exactly when a crash loses something: a deletion that got as far as its record and
   * did not drop every tag of it. From any whole disk, whatever tags are embedded.
   */
  lemma CutSoundIff(d: Disk, c: Command, k: nat)
    requires Whole(d) && Legal(d, c) && k <= |Plan(d, c)|
    ensures var z := Run(d, Plan(d, c)[..k]);
            (Sound(z) <==> (Deletes(d, c) && k >= 2 ==> DropsAll(d, c))) && KindsApart(z.records)
  {
    var z := Run(d, Plan(d, c)[..k]);
    if DropsAll(d, c) {
      StepSafe(d, c);
      SafePrefix(d, Plan(d, c), k, d.index, Run(d, Plan(d, c)).index);
    } else {
      assert RecordSound(d, c.id, d.records[c.id]);
      var r, index := Deleted(d, c), Unbind(d.index, Dropped(d, c), c.id);
      DeletesPlan(d, c);
      if k >= 2 {
        DeleteCut(d, index, r, k);
        var t :| t in d.index && d.index[t] == c.id && t !in Dropped(d, c);
        assert t in z.index && z.index[t] !in z.records;
      } else if k == 1 {
        assert Plan(d, c)[..1] == [WriteIndex(index)];
        RunOne(d, WriteIndex(index));
        IndexLess(d, index);
      }
    }
  }
}
