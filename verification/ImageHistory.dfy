/** Runs that go on after crashes and repairs, and what each crash point costs. */
module ImageHistory {
  import opened Common
  import opened ImageDisk
  import opened ImagePlan
  import opened ImageProofs
  import opened ImageRuns
  import opened ImageCrashes
  import opened ImageBlobs
  import opened ImageLimits
  import opened Fsck

  // --- histories ---------------------------------------------------------

  /**
   * A command, a pull or build, or a repair acting on a report, of which only the first
   * `writes` writes reach the disk, all of them if there are fewer.
   */
  datatype Event =
    | Step(command: Command, writes: nat)
    | Pull(record: Record, content: seq<Write>, writes: nat)
    | Mend(report: seq<Finding>, writes: nat)

  /** The writes of an event that is not cut short. */
  function Writes(d: Disk, e: Event): seq<Write> {
    match e
    case Step(c, _) => Plan(d, c)
    case Pull(r, content, _) => PullPlan(d, r, content)
    case Mend(report, _) => RepairPlan(d, report)
  }

  function Reached(d: Disk, e: Event): nat {
    if e.writes <= |Writes(d, e)| then e.writes else |Writes(d, e)|
  }

  function After(d: Disk, e: Event): Disk {
    Run(d, Writes(d, e)[..Reached(d, e)])
  }

  function Outcome(d: Disk, es: seq<Event>): Disk
    decreases |es|
  {
    if es == [] then d else Outcome(After(d, es[0]), es[1..])
  }

  ghost predicate LegalEvent(d: Disk, e: Event) {
    match e
    case Step(c, _) => Legal(d, c)
    case Pull(r, content, _) => Installable(d, r, content)
    case Mend(report, _) => ReportOf(d, report)
  }

  ghost predicate LegalHistory(d: Disk, es: seq<Event>)
    decreases |es|
  {
    es != [] ==> LegalEvent(d, es[0]) && LegalHistory(After(d, es[0]), es[1..])
  }

  /** A deletion that gets as far as its record has dropped every tag of it. */
  ghost predicate CarefulEvent(d: Disk, e: Event) {
    e.Step? && e.writes >= 2 ==> DropsAll(d, e.command)
  }

  ghost predicate CarefulHistory(d: Disk, es: seq<Event>)
    decreases |es|
  {
    es != [] ==> CarefulEvent(d, es[0]) && CarefulHistory(After(d, es[0]), es[1..])
  }

  ghost predicate WholeThroughout(d: Disk, es: seq<Event>)
    decreases |es|
  {
    Whole(d) && (es != [] ==> WholeThroughout(After(d, es[0]), es[1..]))
  }

  lemma {:induction false} DeletionIsLong(d: Disk, c: Command)
    requires Whole(d) && Deletes(d, c)
    ensures |Plan(d, c)| >= 3
  {
    assert RecordSound(d, c.id, d.records[c.id]);
    DeletesPlan(d, c);
  }

  /** A whole repair is one that is not cut short. */
  lemma MendWhole(d: Disk, report: seq<Finding>)
    requires ReportOf(d, report)
    ensures After(d, Mend(report, |RepairPlan(d, report)|)) == Repaired(d)
  {
    var _ := RepairPrefix(d, report, |RepairPlan(d, report)|);
  }

  lemma {:induction false} EventWholeIff(d: Disk, e: Event)
    requires Whole(d) && LegalEvent(d, e)
    ensures Whole(After(d, e)) <==> CarefulEvent(d, e)
  {
    match e
    case Step(c, writes) =>
      CutSoundIff(d, c, Reached(d, e));
      if Deletes(d, c) { DeletionIsLong(d, c); }
    case Pull(r, content, writes) => PullCrashLosesNothing(d, r, content, Reached(d, e));
    case Mend(report, writes) =>
      var k := RepairPrefix(d, report, Reached(d, e));
      RepairedByWhole(d, Elements(report[..k]));
  }

  /**
   * Commands, pulls, builds and repairs, with crashes at any write of any of them, in any
   * order: every disk along the way has lost nothing, exactly when every deletion that got
   * as far as its record had dropped every tag of it.
   */
  lemma {:induction false} EveryHistoryStaysWhole(d: Disk, es: seq<Event>)
    requires Whole(d) && LegalHistory(d, es)
    ensures WholeThroughout(d, es) <==> CarefulHistory(d, es)
    ensures CarefulHistory(d, es) ==> Whole(Outcome(d, es))
    decreases |es|
  {
    if es != [] {
      EventWholeIff(d, es[0]);
      if CarefulEvent(d, es[0]) {
        EveryHistoryStaysWhole(After(d, es[0]), es[1..]);
      }
    }
  }

  /** An install, pull or build that needs `b` has brought it, or found it there. */
  ghost predicate BringsBlob(d: Disk, e: Event, b: Digest) {
    match e
    case Step(c, _) => Brings(d, c, b)
    case Pull(r, content, _) => b in RecordBlobRefs(r) ==> b in Run(d, content).blobs
    case Mend(_, _) => true
  }

  ghost predicate BringsThroughout(d: Disk, es: seq<Event>, b: Digest)
    decreases |es|
  {
    es != [] ==> BringsBlob(d, es[0], b) && BringsThroughout(After(d, es[0]), es[1..], b)
  }

  /** A repair, however far it gets, keeps every blob a record refers to. */
  lemma RepairKeepsBlob(d: Disk, done: set<Finding>, b: Digest)
    requires Kept(d, b) && forall f :: f in done ==> Reports(d, f)
    ensures Kept(RepairedBy(d, done), b)
  {
    var z := RepairedBy(d, done);
    if n :| n in z.records && b in RecordBlobRefs(z.records[n]) {
      assert b in RecordBlobRefs(d.records[n]);
      assert Needs(d.records, b) && BlobRooted(d, b);
      assert UnreferencedBlob(b) in done ==> Reports(d, UnreferencedBlob(b));
    }
  }

  lemma {:induction false} PullKeepsBlob(d: Disk, r: Record, content: seq<Write>, k: nat, b: Digest)
    requires WellNamed(d.records) && ContentFor(content, r) && Kept(d, b) && k <= |PullPlan(d, r, content)|
    requires b in RecordBlobRefs(r) ==> b in Run(d, content).blobs
    ensures Kept(Run(d, PullPlan(d, r, content)[..k]), b)
  {
    var e := Run(d, content);
    var m := Merged(e, r);
    ContentRun(d, content, r);
    BuildingGuards(d, content, b);
    assert RecordBlobRefs(m) == RecordBlobRefs(r);
    PutBuilds(e, m, b);
    BuildingGuards(e, PutPlan(e, e.index, m), b);
    GuardedAppend(d, content, PutPlan(e, e.index, m), b);
    GuardedPrefix(d, PullPlan(d, r, content), k, b);
  }

  lemma {:induction false} EventKeepsBlob(d: Disk, e: Event, b: Digest)
    requires Whole(d) && LegalEvent(d, e) && Kept(d, b) && BringsBlob(d, e, b)
    ensures Kept(After(d, e), b)
  {
    SoundWellNamed(d);
    match e
    case Step(c, writes) => CrashKeepsBlobs(d, c, Reached(d, e), b);
    case Pull(r, content, writes) => PullKeepsBlob(d, r, content, Reached(d, e), b);
    case Mend(report, writes) =>
      var k := RepairPrefix(d, report, Reached(d, e));
      RepairKeepsBlob(d, Elements(report[..k]), b);
  }

  /** Over such a history, every blob a remaining record refers to stays. */
  lemma {:induction false} EveryHistoryKeepsBlobs(d: Disk, es: seq<Event>, b: Digest)
    requires Whole(d) && LegalHistory(d, es) && CarefulHistory(d, es)
    requires Kept(d, b) && BringsThroughout(d, es, b)
    ensures Kept(Outcome(d, es), b)
    decreases |es|
  {
    if es != [] {
      EventKeepsBlob(d, es[0], b);
      EventWholeIff(d, es[0]);
      EveryHistoryKeepsBlobs(After(d, es[0]), es[1..], b);
    }
  }

  // --- which crash points leave a tag embedded nowhere --------------------

  function Evictions(d: Disk, r: Record): seq<Write> {
    EvictPlan(Apply(d, WriteRecord(r)), d.index, r.id, r.tags)
  }

  /** `k` writes into a put: a tag has left its old holder and the index is not saved yet. */
  predicate PutTorn(d: Disk, r: Record, k: nat) {
    2 <= k <= 1 + |Evictions(d, r)|
  }

  /** `k` writes into a command: some indexed tag is embedded nowhere. */
  predicate Torn(d: Disk, c: Command, k: nat) {
    match c
    case Install(r, content) =>
      k >= |content| && PutTorn(Run(d, content), Merged(Run(d, content), r), k - |content|)
    case AddTag(id, t) =>
      id in d.records && t !in d.records[id].tags
      && PutTorn(d, d.records[id].(tags := d.records[id].tags + [t]), k)
    case Untag(id, t) => id in d.records && t in d.records[id].tags && !Deletes(d, c) && k == 1
    case Remove(id) => false
  }

  /** A tag that has left a record does not come back with later evictions. */
  lemma {:induction false} EvictStaysOut(d: Disk, index: map<Tag, Id>, id: Id, tags: seq<Tag>, k: nat, n: Id, t: Tag)
    requires WellNamed(d.records) && k <= |EvictPlan(d, index, id, tags)|
    requires n in d.records && t !in d.records[n].tags
    ensures var z := Run(d, EvictPlan(d, index, id, tags)[..k]); n in z.records && t !in z.records[n].tags
    decreases |tags|
  {
    if k > 0 {
      var e := Eviction(d, index, id, tags[0]);
      if e.None? {
        EvictStaysOut(d, index, id, tags[1..], k, n, t);
      } else {
        var d' := Apply(d, WriteRecord(e.value));
        var rest := EvictPlan(d', index, id, tags[1..]);
        EvictStaysOut(d', index, id, tags[1..], k - 1, n, t);
        RunCut(d, WriteRecord(e.value), rest, k);
      }
    }
  }

  lemma RunCut(d: Disk, w: Write, rest: seq<Write>, k: nat)
    requires 1 <= k <= 1 + |rest|
    ensures Run(d, ([w] + rest)[..k]) == Run(Apply(d, w), rest[..k - 1])
  {
    assert ([w] + rest)[..k] == [w] + rest[..k - 1];
    RunAppend(d, [w], rest[..k - 1]);
    RunOne(d, w);
  }

  /** The index gives `t` to a record that does not embed it. */
  ghost predicate Astray(d: Disk, index: map<Tag, Id>, t: Tag) {
    t in index && index[t] in d.records && t !in d.records[index[t]].tags
  }

  /** Once evictions have begun, some tag is astray. */
  lemma {:induction false} EvictLoses(d: Disk, index: map<Tag, Id>, id: Id, tags: seq<Tag>, k: nat)
    requires WellNamed(d.records) && 1 <= k <= |EvictPlan(d, index, id, tags)|
    ensures exists t :: Astray(Run(d, EvictPlan(d, index, id, tags)[..k]), index, t)
    decreases |tags|
  {
    var t := tags[0];
    var e := Eviction(d, index, id, t);
    if e.None? {
      EvictLoses(d, index, id, tags[1..], k);
    } else {
      var d' := Apply(d, WriteRecord(e.value));
      EvictStaysOut(d', index, id, tags[1..], k - 1, index[t], t);
      RunCut(d, WriteRecord(e.value), EvictPlan(d', index, id, tags[1..]), k);
      assert Astray(Run(d, EvictPlan(d, index, id, tags)[..k]), index, t);
    }
  }

  /** Evictions do not touch the index. */
  lemma {:induction false} EvictIndex(d: Disk, index: map<Tag, Id>, id: Id, tags: seq<Tag>, k: nat)
    requires k <= |EvictPlan(d, index, id, tags)|
    ensures Run(d, EvictPlan(d, index, id, tags)[..k]).index == d.index
    decreases |tags|
  {
    if k > 0 {
      var e := Eviction(d, index, id, tags[0]);
      if e.None? {
        EvictIndex(d, index, id, tags[1..], k);
      } else {
        var d' := Apply(d, WriteRecord(e.value));
        EvictIndex(d', index, id, tags[1..], k - 1);
        RunCut(d, WriteRecord(e.value), EvictPlan(d', index, id, tags[1..]), k);
      }
    }
  }

  /** The first write of a put leaves every indexed tag embedded. */
  lemma FirstWriteEmbeds(d: Disk, r: Record)
    requires Puttable(d, r)
    ensures Embedded(Apply(d, WriteRecord(r)))
  {
  }

  lemma PutCut(d: Disk, r: Record, k: nat)
    requires 1 <= k <= 1 + |Evictions(d, r)|
    ensures Run(d, PutPlan(d, d.index, r)[..k]) == Run(Apply(d, WriteRecord(r)), Evictions(d, r)[..k - 1])
  {
    var evict, last := Evictions(d, r), [WriteIndex(Bind(d.index, r.tags, r.id))];
    assert PutPlan(d, d.index, r) == [WriteRecord(r)] + (evict + last);
    RunCut(d, WriteRecord(r), evict + last, k);
    assert (evict + last)[..k - 1] == evict[..k - 1];
  }

  lemma PutCutEmbeddedIff(d: Disk, r: Record, k: nat)
    requires Puttable(d, r) && k <= |PutPlan(d, d.index, r)|
    ensures Embedded(Run(d, PutPlan(d, d.index, r)[..k])) <==> !PutTorn(d, r, k)
  {
    var plan, evict := PutPlan(d, d.index, r), Evictions(d, r);
    assert |plan| == |evict| + 2;
    var d1 := Apply(d, WriteRecord(r));
    SoundWellNamed(d);
    if k == |plan| {
      assert plan[..k] == plan;
      PutRun(d, r);
      PutKeepsTags(d, r);
    } else if k == 1 {
      PutCut(d, r, k);
      FirstWriteEmbeds(d, r);
    } else if k >= 2 {
      PutCut(d, r, k);
      WellNamedWrite(d, r);
      EvictLoses(d1, d.index, r.id, r.tags, k - 1);
      EvictIndex(d1, d.index, r.id, r.tags, k - 1);
    }
  }

  /** Any part of the collection behind a put leaves the tags as the put did. */
  lemma CollectCutEmbeds(d: Disk, r: Record, was: Record, k: nat)
    requires Puttable(d, r) && k <= |GcPlan(Run(d, PutPlan(d, d.index, r)), was)|
    ensures var put := PutPlan(d, d.index, r); Embedded(Run(d, put + GcPlan(Run(d, put), was)[..k]))
  {
    var put := PutPlan(d, d.index, r);
    var p := Run(d, put);
    var cut := GcPlan(p, was)[..k];
    forall w | w in cut ensures w.RemoveLayer? || w.RemoveBlob? { GcWrites(p, was, w); }
    RemovalsRun(p, cut);
    RunAppend(d, put, cut);
    SoundWellNamed(d);
    PutRun(d, r);
    PutKeepsTags(d, r);
  }

  lemma ReplaceCutEmbeddedIff(d: Disk, r: Record, k: nat)
    requires Puttable(d, Merged(d, r)) && k <= |ReplacePlan(d, r)|
    ensures Embedded(Run(d, ReplacePlan(d, r)[..k])) <==> !PutTorn(d, Merged(d, r), k)
  {
    var put, plan := PutPlan(d, d.index, Merged(d, r)), ReplacePlan(d, r);
    if k <= |put| {
      assert plan[..k] == put[..k];
      PutCutEmbeddedIff(d, Merged(d, r), k);
    } else {
      var gc := GcPlan(Run(d, put), d.records[r.id]);
      assert plan[..k] == put + gc[..k - |put|];
      CollectCutEmbeds(d, Merged(d, r), d.records[r.id], k - |put|);
    }
  }

  lemma ContentCutEmbeds(d: Disk, r: Record, content: seq<Write>, k: nat)
    requires Embedded(d) && ContentFor(content, r) && k <= |content|
    ensures Embedded(Run(d, content[..k]))
  {
    ContentRun(d, content[..k], r);
  }

  lemma ContentPuttable(d: Disk, r: Record, content: seq<Write>)
    requires Coherent(d) && Installable(d, r, content)
    ensures var e := Run(d, content); Puttable(e, Merged(e, r))
  {
    ContentKeepsSound(d, r, content);
  }

  /** Content and collection leave tags alone, so an install is torn where its put is. */
  lemma {:induction false} InstallCutEmbeddedIff(d: Disk, r: Record, content: seq<Write>, k: nat)
    requires Coherent(d) && Installable(d, r, content) && k <= |Plan(d, Install(r, content))|
    ensures Embedded(Run(d, Plan(d, Install(r, content))[..k])) <==> !Torn(d, Install(r, content), k)
  {
    var e := Run(d, content);
    var plan, rest := Plan(d, Install(r, content)), ReplacePlan(e, r);
    if k <= |content| {
      assert plan[..k] == content[..k];
      ContentCutEmbeds(d, r, content, k);
    } else {
      ContentPuttable(d, r, content);
      assert plan[..k] == content + rest[..k - |content|];
      RunAppend(d, content, rest[..k - |content|]);
      ReplaceCutEmbeddedIff(e, r, k - |content|);
    }
  }

  lemma UntagCutEmbeddedIff(d: Disk, id: Id, t: Tag, k: nat)
    requires Coherent(d) && id in d.records && !Deletes(d, Untag(id, t)) && k <= |Plan(d, Untag(id, t))|
    ensures Embedded(Run(d, Plan(d, Untag(id, t))[..k])) <==> !(t in d.records[id].tags && k == 1)
  {
    var plan := Plan(d, Untag(id, t));
    assert RecordSound(d, id, d.records[id]);
    if k == 2 {
      assert plan[..k] == plan;
      UntagRun(d, id, t);
      SoundWellNamed(d);
      UntagTags(d, id, t);
    } else if k == 1 {
      var r := d.records[id].(tags := Minus(d.records[id].tags, {t}));
      assert plan[..1] == [WriteRecord(r)];
      RunOne(d, WriteRecord(r));
      if t in d.records[id].tags {
        assert d.index[t] == id && t !in r.tags;
      } else {
        assert d.records[id := r] == d.records;
      }
    }
  }

  lemma DeletionCutEmbeds(d: Disk, c: Command, k: nat)
    requires Coherent(d) && Deletes(d, c) && k <= |Plan(d, c)|
    ensures Embedded(Run(d, Plan(d, c)[..k]))
  {
    assert RecordSound(d, c.id, d.records[c.id]);
    var r, index := Deleted(d, c), Unbind(d.index, Dropped(d, c), c.id);
    DeletesPlan(d, c);
    CoherentDropsAll(d, c);
    if k >= 2 {
      DeleteCut(d, index, r, k);
    } else if k == 1 {
      assert Plan(d, c)[..1] == [WriteIndex(index)];
      RunOne(d, WriteIndex(index));
    }
  }

  /**
   * From a coherent store, a crash leaves every indexed tag embedded exactly when it does
   * not fall between the first eviction of a put, or the rewrite of an untag, and the
   * saving of the index. After those crash points alone can a later deletion go wrong.
   */
  lemma CutEmbeddedIff(d: Disk, c: Command, k: nat)
    requires Coherent(d) && Legal(d, c) && k <= |Plan(d, c)|
    ensures Embedded(Run(d, Plan(d, c)[..k])) <==> !Torn(d, c, k)
  {
    if Deletes(d, c) {
      DeletionCutEmbeds(d, c, k);
    } else {
      match c
      case Install(r, content) => InstallCutEmbeddedIff(d, r, content, k);
      case AddTag(id, t) =>
        if id in d.records && t !in d.records[id].tags {
          assert RecordSound(d, id, d.records[id]);
          PutCutEmbeddedIff(d, d.records[id].(tags := d.records[id].tags + [t]), k);
        }
      case Untag(id, t) => if id in d.records { UntagCutEmbeddedIff(d, id, t, k); }
      case Remove(id) =>
    }
  }
}
