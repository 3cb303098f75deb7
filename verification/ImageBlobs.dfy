/**
 * What fsck does not ask: it excuses a missing layer blob whose layer is unpacked.
 * The store does better, and keeps every blob a remaining record refers to.
 */
module ImageBlobs {
  import opened Common
  import opened ImageDisk
  import opened ImagePlan
  import opened ImageProofs
  import opened ImageRuns

  ghost predicate Needs(records: map<Id, Record>, b: Digest) {
    exists n :: n in records && b in RecordBlobRefs(records[n])
  }

  /** If a record refers to `b`, as its config or as a layer, `b` is there. */
  ghost predicate Kept(d: Disk, b: Digest) {
    Needs(d.records, b) ==> b in d.blobs
  }

  /** `b` is kept at every point of a plan. */
  ghost predicate Guarded(d: Disk, plan: seq<Write>, b: Digest)
    decreases |plan|
  {
    Kept(d, b) && (plan != [] ==> Guarded(Apply(d, plan[0]), plan[1..], b))
  }

  lemma {:induction false} GuardedAppend(d: Disk, p: seq<Write>, q: seq<Write>, b: Digest)
    requires Guarded(d, p, b) && Guarded(Run(d, p), q, b)
    ensures Guarded(d, p + q, b)
    decreases |p|
  {
    if p == [] {
      assert p + q == q;
    } else {
      assert (p + q)[1..] == p[1..] + q;
      GuardedAppend(Apply(d, p[0]), p[1..], q, b);
    }
  }

  lemma {:induction false} GuardedPrefix(d: Disk, plan: seq<Write>, k: nat, b: Digest)
    requires Guarded(d, plan, b) && k <= |plan|
    ensures Kept(Run(d, plan[..k]), b)
    decreases |plan|
  {
    if k > 0 {
      assert plan[..k][1..] == plan[1..][..k - 1];
      GuardedPrefix(Apply(d, plan[0]), plan[1..], k - 1, b);
    }
  }

  lemma {:induction false} PresentStays(d: Disk, plan: seq<Write>, b: Digest)
    requires b in d.blobs && RemoveBlob(b) !in plan
    ensures Guarded(d, plan, b) && b in Run(d, plan).blobs
    decreases |plan|
  {
    if plan != [] {
      assert plan[0] in plan;
      PresentStays(Apply(d, plan[0]), plan[1..], b);
    }
  }

  /** The write puts a record in need of `b` on disk. */
  predicate Demands(w: Write, b: Digest) {
    || (w.WriteRecord? && b in RecordBlobRefs(w.record))
    || (w.RewriteFile? && b in RecordBlobRefs(w.contents))
  }

  lemma {:induction false} UnneededStays(d: Disk, plan: seq<Write>, b: Digest)
    requires !Needs(d.records, b)
    requires forall w :: w in plan ==> !Demands(w, b)
    ensures Guarded(d, plan, b) && !Needs(Run(d, plan).records, b)
    decreases |plan|
  {
    if plan != [] {
      assert plan[0] in plan;
      assert !Needs(Apply(d, plan[0]).records, b);
      UnneededStays(Apply(d, plan[0]), plan[1..], b);
    }
  }

  /** Writes that do not remove `b`, and write no record in need of it unless it is there. */
  ghost predicate Building(d: Disk, plan: seq<Write>, b: Digest) {
    && RemoveBlob(b) !in plan
    && forall w :: w in plan && Demands(w, b) ==> b in d.blobs
  }

  lemma BuildingGuards(d: Disk, plan: seq<Write>, b: Digest)
    requires Kept(d, b) && Building(d, plan, b)
    ensures Guarded(d, plan, b) && Kept(Run(d, plan), b)
  {
    if b in d.blobs {
      PresentStays(d, plan, b);
    } else {
      UnneededStays(d, plan, b);
    }
  }

  /** Writes that write no record in need of `b`, and remove it only if none is there. */
  ghost predicate Collecting(d: Disk, plan: seq<Write>, b: Digest) {
    && (forall w :: w in plan ==> !Demands(w, b))
    && (Needs(d.records, b) ==> RemoveBlob(b) !in plan)
  }

  lemma CollectingGuards(d: Disk, plan: seq<Write>, b: Digest)
    requires Kept(d, b) && Collecting(d, plan, b)
    ensures Guarded(d, plan, b)
  {
    if Needs(d.records, b) {
      PresentStays(d, plan, b);
    } else {
      UnneededStays(d, plan, b);
    }
  }

  // --- the plans ---------------------------------------------------------

  lemma {:induction false} EvictBuilds(d: Disk, index: map<Tag, Id>, id: Id, tags: seq<Tag>, b: Digest, w: Write)
    requires w in EvictPlan(d, index, id, tags)
    ensures w.WriteRecord? && (Demands(w, b) ==> Needs(d.records, b))
    decreases |tags|
  {
    var e := Eviction(d, index, id, tags[0]);
    if e.None? {
      EvictBuilds(d, index, id, tags[1..], b, w);
    } else {
      assert b in RecordBlobRefs(e.value) ==> b in RecordBlobRefs(d.records[index[tags[0]]]);
      if w != WriteRecord(e.value) {
        EvictBuilds(Apply(d, WriteRecord(e.value)), index, id, tags[1..], b, w);
      }
    }
  }

  lemma PutBuilds(d: Disk, r: Record, b: Digest)
    requires Kept(d, b) && (b in RecordBlobRefs(r) ==> b in d.blobs)
    ensures Building(d, PutPlan(d, d.index, r), b)
  {
    var d1 := Apply(d, WriteRecord(r));
    var evict := EvictPlan(d1, d.index, r.id, r.tags);
    forall w | w in evict ensures w.WriteRecord? && (Demands(w, b) ==> b in d.blobs) {
      EvictBuilds(d1, d.index, r.id, r.tags, b, w);
    }
  }

  /** The collector removes no blob that a record on disk refers to. */
  lemma GcCollects(d: Disk, was: Record, b: Digest)
    requires WellNamed(d.records) && forall n :: n in d.records ==> n !in was.layerBlobs
    ensures Collecting(d, GcPlan(d, was), b)
  {
    var used := UsedBlobs(d.records);
    forall w | w in GcPlan(d, was)
      ensures w.RemoveLayer? || (w.RemoveBlob? && w.blob in was.layerBlobs && w.blob !in used)
    {
      GcWrites(d, was, w);
    }
    if n :| n in d.records && b in RecordBlobRefs(d.records[n]) {
      assert b == n || b in used;
    }
  }

  lemma ReplaceGuards(e: Disk, r: Record, b: Digest)
    requires WellNamed(e.records) && KindsApart(e.records) && Kept(e, b)
    requires b in RecordBlobRefs(r) ==> b in e.blobs
    ensures Guarded(e, ReplacePlan(e, r), b)
  {
    var m := Merged(e, r);
    var put := PutPlan(e, e.index, m);
    assert RecordBlobRefs(m) == RecordBlobRefs(r);
    PutBuilds(e, m, b);
    BuildingGuards(e, put, b);
    if r.id in e.records {
      var p := PutResult(e, m);
      PutRun(e, m);
      PutContent(e, m);
      ReplacedApart(e, m);
      GcCollects(p, e.records[r.id], b);
      CollectingGuards(p, GcPlan(p, e.records[r.id]), b);
      GuardedAppend(e, put, GcPlan(p, e.records[r.id]), b);
    }
  }

  lemma InstallGuards(d: Disk, r: Record, content: seq<Write>, b: Digest)
    requires WellNamed(d.records) && KindsApart(d.records) && ContentFor(content, r) && Kept(d, b)
    requires b in RecordBlobRefs(r) ==> b in Run(d, content).blobs
    ensures Guarded(d, Plan(d, Install(r, content)), b)
  {
    var e := Run(d, content);
    ContentRun(d, content, r);
    BuildingGuards(d, content, b);
    ReplaceGuards(e, r, b);
    GuardedAppend(d, content, ReplacePlan(e, r), b);
  }

  lemma DeleteGuards(d: Disk, index: map<Tag, Id>, r: Record, b: Digest)
    requires WellNamed(d.records) && KindsApart(d.records) && Kept(d, b)
    requires r.id in d.records && r.layerBlobs == d.records[r.id].layerBlobs
    ensures Guarded(d, DeletePlan(d, index, r), b)
  {
    var first := [WriteIndex(index), RemoveRecord(r.id)];
    var e := d.(index := index, records := d.records - {r.id});
    RunAppend(d, [WriteIndex(index)], [RemoveRecord(r.id)]);
    assert first == [WriteIndex(index)] + [RemoveRecord(r.id)];
    assert Run(d, first) == e;
    BuildingGuards(d, first, b);
    var gc, last := GcPlan(e, r), [RemoveBlob(r.id)];
    assert gc == GcPlan(Apply(d, RemoveRecord(r.id)), r);
    DeleteCollects(d, e, r, b);
    CollectingGuards(e, gc + last, b);
    GuardedAppend(d, first, gc + last, b);
    assert DeletePlan(d, index, r) == first + (gc + last);
  }

  lemma DeleteCollects(d: Disk, e: Disk, r: Record, b: Digest)
    requires WellNamed(d.records) && KindsApart(d.records)
    requires r.id in d.records && r.layerBlobs == d.records[r.id].layerBlobs
    requires e.records == d.records - {r.id}
    ensures Collecting(e, GcPlan(e, r) + [RemoveBlob(r.id)], b)
  {
    forall n | n in e.records ensures n !in r.layerBlobs && r.id !in RecordBlobRefs(e.records[n]) {
      assert d.records[n].id !in d.records[r.id].layerBlobs;
      assert d.records[r.id].id !in d.records[n].layerBlobs;
    }
    GcCollects(e, r, b);
  }

  lemma UntagGuards(d: Disk, id: Id, t: Tag, b: Digest)
    requires WellNamed(d.records) && KindsApart(d.records) && Kept(d, b) && id in d.records
    ensures Guarded(d, Plan(d, Untag(id, t)), b)
  {
    var r := d.records[id].(tags := Minus(d.records[id].tags, {t}));
    assert RecordBlobRefs(r) == RecordBlobRefs(d.records[id]);
    if r.tags == [] {
      DeleteGuards(d, Unbind(d.index, [t], id), r, b);
    } else {
      BuildingGuards(d, Plan(d, Untag(id, t)), b);
    }
  }

  lemma AddTagGuards(d: Disk, id: Id, t: Tag, b: Digest)
    requires WellNamed(d.records) && Kept(d, b)
    ensures Guarded(d, Plan(d, AddTag(id, t)), b)
  {
    if id in d.records && t !in d.records[id].tags {
      var r := d.records[id].(tags := d.records[id].tags + [t]);
      assert RecordBlobRefs(r) == RecordBlobRefs(d.records[id]);
      PutBuilds(d, r, b);
      BuildingGuards(d, PutPlan(d, d.index, r), b);
    }
  }

  // --- main results ------------------------------------------------------

  /** An install that needs `b` has brought it, or found it there. */
  ghost predicate Brings(d: Disk, c: Command, b: Digest) {
    c.Install? && b in RecordBlobRefs(c.record) ==> b in Run(d, c.content).blobs
  }

  lemma StepGuards(d: Disk, c: Command, b: Digest)
    requires WellNamed(d.records) && KindsApart(d.records) && Legal(d, c) && Kept(d, b) && Brings(d, c, b)
    ensures Guarded(d, Plan(d, c), b)
  {
    match c
    case Install(r, content) => InstallGuards(d, r, content, b);
    case AddTag(id, t) => AddTagGuards(d, id, t, b);
    case Untag(id, t) => if id in d.records { UntagGuards(d, id, t, b); }
    case Remove(id) =>
      if id in d.records { DeleteGuards(d, Unbind(d.index, d.records[id].tags, id), d.records[id], b); }
  }

  /** After a crash at any point of any operation, every blob a record refers to is still there. */
  lemma CrashKeepsBlobs(d: Disk, c: Command, k: nat, b: Digest)
    requires WellNamed(d.records) && KindsApart(d.records) && Legal(d, c)
    requires Kept(d, b) && Brings(d, c, b) && k <= |Plan(d, c)|
    ensures Kept(Run(d, Plan(d, c)[..k]), b)
  {
    StepGuards(d, c, b);
    GuardedPrefix(d, Plan(d, c), k, b);
  }

  ghost predicate BringsAll(d: Disk, cs: seq<Command>, b: Digest)
    decreases |cs|
  {
    cs != [] ==> Brings(d, cs[0], b) && BringsAll(Run(d, Plan(d, cs[0])), cs[1..], b)
  }

  /** In no run does the collector take a blob that a remaining record refers to. */
  lemma {:induction false} RunKeepsBlobs(d: Disk, cs: seq<Command>, b: Digest)
    requires Coherent(d) && LegalRun(d, cs) && Kept(d, b) && BringsAll(d, cs, b)
    ensures Kept(Execute(d, cs), b)
    decreases |cs|
  {
    if cs != [] {
      var plan := Plan(d, cs[0]);
      SoundWellNamed(d);
      StepKeepsCoherent(d, cs[0]);
      CrashKeepsBlobs(d, cs[0], |plan|, b);
      assert plan[..|plan|] == plan;
      RunKeepsBlobs(Run(d, plan), cs[1..], b);
    }
  }
}
