/** Where the image store does not keep itself clean, and exactly when it does. */
module ImageLimits {
  import opened Common
  import opened ImageDisk
  import opened ImagePlan
  import opened ImageProofs
  import opened ImageRuns
  import opened ImageCrashes

  /**
   * fsck-clean alone is not inductive: removing an image from a clean store leaves
   * it clean exactly when the record embeds every tag the index gives it.
   */
  lemma RemoveCleanIff(d: Disk, id: Id)
    requires Clean(d) && KindsApart(d.records) && id in d.records
    ensures Clean(Run(d, Plan(d, Remove(id)))) <==> IndexedOnlyAs(d, id, d.records[id].tags)
  {
    CleanIff(d);
    StepCleanIff(d, Remove(id));
  }

  /** Dropping a record's last tag deletes it, under the same proviso. */
  lemma LastUntagCleanIff(d: Disk, id: Id, t: Tag)
    requires Clean(d) && KindsApart(d.records) && id in d.records
    requires forall u :: u in d.records[id].tags ==> u == t
    ensures Clean(Run(d, Plan(d, Untag(id, t)))) <==> IndexedOnlyAs(d, id, [t])
  {
    CleanIff(d);
    MinusAll(d.records[id].tags, {t});
    StepCleanIff(d, Untag(id, t));
  }

  /**
   * The proviso is not idle: a daemon that dies between the two writes of an untag,
   * and removes the image after its restart, leaves the tag naming no record.
   */
  lemma UntagCrashThenRemoveDangles(d: Disk, id: Id, t: Tag)
    requires Coherent(d) && id in d.records && t in d.records[id].tags
    requires exists u :: u in d.records[id].tags && u != t
    ensures var y := Run(d, Plan(d, Untag(id, t))[..1]);
            Reports(Run(y, Plan(y, Remove(id))), DanglingTag(t))
  {
    var r := d.records[id];
    assert RecordSound(d, id, r) && d.index[t] == id;
    var r' := r.(tags := Minus(r.tags, {t}));
    var u :| u in r.tags && u != t;
    assert u in r'.tags;
    assert Plan(d, Untag(id, t))[..1] == [WriteRecord(r')];
    assert Run(d, [WriteRecord(r')]) == Run(Apply(d, WriteRecord(r')), []);
    RemoveStrandsTag(Apply(d, WriteRecord(r')), id, t);
  }

  /** Removing a record leaves behind any tag the index gives it that it does not embed. */
  lemma RemoveStrandsTag(d: Disk, id: Id, t: Tag)
    requires id in d.records && d.records[id].id == id && t !in d.records[id].tags
    requires t in d.index && d.index[t] == id
    ensures Reports(Run(d, Plan(d, Remove(id))), DanglingTag(t))
  {
    DeleteRun(d, Unbind(d.index, d.records[id].tags, id), d.records[id]);
  }

  // --- pull and build ----------------------------------------------------

  /** The replaced revision has a blob on disk that nothing will root any more. */
  ghost predicate StrandsBlob(d: Disk, r: Record, b: Digest) {
    && r.id in d.records && b in d.records[r.id].layerBlobs && b in d.blobs
    && b !in r.layerBlobs && b !in d.cacheBlobs
    && forall n :: n in d.records && n != r.id ==> b !in d.records[n].layerBlobs
  }

  ghost predicate StrandsLayer(d: Disk, r: Record, l: Digest) {
    && r.id in d.records && l in d.records[r.id].diffIds
    && l !in r.diffIds && l !in d.cacheLayers
    && forall n :: n in d.records && n != r.id ==> l !in d.records[n].diffIds
  }

  /** A put that skips the collection leaves a tidy disk exactly when it strands nothing. */
  lemma PullTidyIff(d: Disk, r: Record, content: seq<Write>)
    requires Tidy(d) && KindsApart(d.records) && Installable(d, r, content)
    ensures Tidy(Run(d, PullPlan(d, r, content)))
            <==> (forall b :: !StrandsBlob(d, r, b)) && (forall l :: !StrandsLayer(d, r, l))
  {
    var e := Run(d, content);
    var m := Merged(e, r);
    var p := PutResult(e, m);
    SoundWellNamed(d);
    ContentRun(d, content, r);
    PullRun(d, r, content);
    InstallPut(d, r, content);
    forall b | b in p.blobs ensures !BlobRooted(p, b) <==> StrandsBlob(d, r, b) {
      StrandedBlob(d, e, r, m, b);
    }
    forall l | l in p.layers ensures !LayerRooted(p, l) <==> StrandsLayer(d, r, l) {
      StrandedLayer(d, e, r, m, l);
    }
    forall l | StrandsLayer(d, r, l) ensures l in p.layers {
      assert RecordSound(d, r.id, d.records[r.id]);
    }
  }

  lemma PullRun(d: Disk, r: Record, content: seq<Write>)
    requires WellNamed(d.records) && ContentFor(content, r)
    ensures var e := Run(d, content); Run(d, PullPlan(d, r, content)) == PutResult(e, Merged(e, r))
  {
    var e := Run(d, content);
    ContentRun(d, content, r);
    RunAppend(d, content, PutPlan(e, e.index, Merged(e, r)));
    PutRun(e, Merged(e, r));
  }

  /** A crash at any write of a pull loses nothing either. */
  lemma {:induction false} PullCrashLosesNothing(d: Disk, r: Record, content: seq<Write>, k: nat)
    requires Whole(d) && Installable(d, r, content) && k <= |PullPlan(d, r, content)|
    ensures var z := Run(d, PullPlan(d, r, content)[..k]);
            Whole(z) && (z.index == d.index || z.index == Run(d, PullPlan(d, r, content)).index)
  {
    var e := Run(d, content);
    var m := Merged(e, r);
    var index := Bind(e.index, m.tags, r.id);
    SoundWellNamed(d);
    ContentKeepsSound(d, r, content);
    KindsByContent(d.records, r, m);
    ContentSafe(d, content, r, index);
    PutSafe(e, m);
    SafeAppend(d, content, PutPlan(e, e.index, m), d.index, index);
    SafePrefix(d, PullPlan(d, r, content), k, d.index, index);
    PullRun(d, r, content);
  }

  /** What a pull brings ahead of the record; unpacking any layer creates the sidecar directory. */
  ghost predicate Pulled(d: Disk, r: Record, content: seq<Write>) {
    Installable(d, r, content) && (r.layerBlobs != [] ==> Sidecar in Run(d, content).strays)
  }

  /**
   * After a pull fsck is clean exactly when nothing is stranded and the builder cache
   * names every stray directory, the unpack sidecar included.
   */
  lemma PullCleanIff(d: Disk, r: Record, content: seq<Write>)
    requires Tidy(d) && KindsApart(d.records) && Pulled(d, r, content)
    ensures Clean(Run(d, PullPlan(d, r, content)))
            <==> && (forall b :: !StrandsBlob(d, r, b)) && (forall l :: !StrandsLayer(d, r, l))
                 && Run(d, content).strays <= d.cacheStrays
    ensures Clean(Run(d, PullPlan(d, r, content))) && r.layerBlobs != [] ==> Sidecar in d.cacheStrays
  {
    PullTidyIff(d, r, content);
    SoundWellNamed(d);
    ContentRun(d, content, r);
    PullRun(d, r, content);
    CleanIff(Run(d, PullPlan(d, r, content)));
  }

  /** A data root in its first hour. */
  const FRESH := Disk(map[], map[], {}, {}, {}, {}, {}, {}, {})

  lemma FreshIsClean()
    ensures Clean(FRESH) && Coherent(FRESH)
  {
    CleanIff(FRESH);
  }

  /** The first pull of any image with a layer leaves a store fsck does not call clean. */
  lemma FirstPullIsReported(r: Record, content: seq<Write>)
    requires Pulled(FRESH, r, content) && r.layerBlobs != []
    ensures var z := Run(FRESH, PullPlan(FRESH, r, content));
            Tidy(z) && Reports(z, StrayDirectory(Sidecar))
  {
    FreshIsClean();
    SoundWellNamed(FRESH);
    PullTidyIff(FRESH, r, content);
    PullRun(FRESH, r, content);
    ContentRun(FRESH, content, r);
  }

  /** One layer, pulled: config, blob, sidecar, layer. */
  const PULLED := Record("c", ["t"], [], "m", ["l"], ["b"])
  const PULLED_CONTENT := [AddBlob("c"), AddBlob("b"), AddStray(Sidecar), AddLayer("l")]

  /** Such a pull exists. */
  lemma FirstPullExists()
    ensures Pulled(FRESH, PULLED, PULLED_CONTENT) && PULLED.layerBlobs != []
  {
    var e := Run(FRESH, PULLED_CONTENT);
    ContentRun(FRESH, PULLED_CONTENT, PULLED);
    assert AddBlob("c") in PULLED_CONTENT && AddStray(Sidecar) in PULLED_CONTENT && AddLayer("l") in PULLED_CONTENT;
    assert RecordSound(e, "c", PULLED);
    var k := FRESH.records["c" := PULLED];
    assert forall n :: n in k ==> n == "c";
    assert "c" !in PULLED.layerBlobs by { assert "c" != "b"; }
  }

  /** No command takes the sidecar directory away: it is reported from then on. */
  lemma {:induction false} SidecarStays(d: Disk, cs: seq<Command>)
    requires WellNamed(d.records) && LegalRun(d, cs) && Reports(d, StrayDirectory(Sidecar))
    ensures Reports(Execute(d, cs), StrayDirectory(Sidecar))
    decreases |cs|
  {
    if cs != [] {
      StepStrays(d, cs[0]);
      if cs[0].Install? { ContentRun(d, cs[0].content, cs[0].record); }
      SidecarStays(Run(d, Plan(d, cs[0])), cs[1..]);
    }
  }

  /** A second pull of one image under another layer leaves the first layer's content behind. */
  lemma RepullStrands(d: Disk, r: Record, content: seq<Write>, l: Digest)
    requires Tidy(d) && KindsApart(d.records) && Installable(d, r, content) && StrandsLayer(d, r, l)
    ensures Reports(Run(d, PullPlan(d, r, content)), UnreferencedLayer(l))
  {
    var e := Run(d, content);
    SoundWellNamed(d);
    ContentRun(d, content, r);
    PullRun(d, r, content);
    assert RecordSound(d, r.id, d.records[r.id]);
    StrandedLayer(d, e, r, Merged(e, r), l);
  }

  /** The store one pull left, and another revision of the same image. */
  const ONE_IMAGE := Disk(map["t" := "c"], map["c" := PULLED], {"c", "b"}, {}, {"l"}, {Sidecar}, {}, {}, {})
  const REVISED := PULLED.(diffIds := ["k"], layerBlobs := ["a"])
  const REVISED_CONTENT := [AddBlob("a"), AddLayer("k")]

  lemma OneImageTidy()
    ensures Coherent(ONE_IMAGE)
  {
    var d := ONE_IMAGE;
    assert d.records["c"] == PULLED && forall n :: n in d.records ==> n == "c";
    assert RecordSound(d, "c", PULLED);
    assert "c" in RecordBlobRefs(PULLED) && "b" in RecordBlobRefs(PULLED) && "l" in PULLED.diffIds;
    assert "c" !in PULLED.layerBlobs by { assert "c" != "b"; }
  }

  /** There the second pull strands the first one's layer. */
  lemma RepullExample()
    ensures Coherent(ONE_IMAGE) && Installable(ONE_IMAGE, REVISED, REVISED_CONTENT)
    ensures Reports(Run(ONE_IMAGE, PullPlan(ONE_IMAGE, REVISED, REVISED_CONTENT)), UnreferencedLayer("l"))
  {
    OneImageTidy();
    ContentRun(ONE_IMAGE, REVISED_CONTENT, REVISED);
    assert AddLayer("k") in REVISED_CONTENT;
    assert RecordSound(Run(ONE_IMAGE, REVISED_CONTENT), "c", REVISED);
    var k := ONE_IMAGE.records["c" := REVISED];
    assert forall n :: n in k ==> n == "c";
    assert "c" !in REVISED.layerBlobs by { assert "c" != "a"; }
    assert "l" != "k";
    assert StrandsLayer(ONE_IMAGE, REVISED, "l");
    RepullStrands(ONE_IMAGE, REVISED, REVISED_CONTENT, "l");
  }

  lemma StrandedBlob(d: Disk, e: Disk, r: Record, m: Record, b: Digest)
    requires Tidy(d) && KindsApart(d.records) && KindsApart(d.records[r.id := r]) && r.id != ""
    requires e == d.(blobs := e.blobs, layers := e.layers, strays := e.strays) && b in e.blobs
    requires forall x :: x in e.blobs ==> x in d.blobs || x in RecordBlobRefs(r)
    requires m == Merged(e, r)
    ensures !BlobRooted(PutResult(e, m), b) <==> StrandsBlob(d, r, b)
  {
    var p := PutResult(e, m);
    PutContent(e, m);
    if StrandsBlob(d, r, b) {
      forall n | n in p.records ensures b !in RecordBlobRefs(p.records[n]) {
        assert n in d.records && RecordSound(d, n, d.records[n]);
        assert d.records[n].id !in d.records[r.id].layerBlobs;
      }
    } else {
      if b in RecordBlobRefs(r) { assert b in RecordBlobRefs(p.records[r.id]); }
      else if b !in d.cacheBlobs {
        var n :| n in d.records && b in RecordBlobRefs(d.records[n]);
        if n == r.id {
          assert RecordSound(d, n, d.records[n]);
          assert b in d.records[n].layerBlobs;
          var k :| k in d.records && k != r.id && b in d.records[k].layerBlobs;
          assert b in RecordBlobRefs(p.records[k]);
        } else {
          assert b in RecordBlobRefs(p.records[n]);
        }
      }
    }
  }

  lemma StrandedLayer(d: Disk, e: Disk, r: Record, m: Record, l: Digest)
    requires Tidy(d)
    requires e == d.(blobs := e.blobs, layers := e.layers, strays := e.strays) && l in e.layers
    requires forall x :: x in e.layers ==> x in d.layers || x in r.diffIds
    requires m == Merged(e, r)
    ensures !LayerRooted(PutResult(e, m), l) <==> StrandsLayer(d, r, l)
  {
    var p := PutResult(e, m);
    PutContent(e, m);
    if StrandsLayer(d, r, l) {
      forall n | n in p.records ensures l !in p.records[n].diffIds { assert n in d.records; }
    } else {
      if l in r.diffIds { assert l in p.records[r.id].diffIds; }
      else if l !in d.cacheLayers {
        var n :| n in d.records && l in d.records[n].diffIds;
        if n == r.id {
          var k :| k in d.records && k != r.id && l in d.records[k].diffIds;
          assert l in p.records[k].diffIds;
        } else {
          assert l in p.records[n].diffIds;
        }
      }
    }
  }
}
