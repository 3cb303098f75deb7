/** The running image store: an in-memory tag index over the data root. */
module ImageStore {
  import opened Common
  import opened ImageDisk
  import opened ImagePlan
  import opened ImageProofs
  import opened ImageRuns
  import opened ImageCrashes
  import opened ImageEffects
  import opened Fsck

  datatype Error = NoSuchImage | Refused

  /** The store on disk. Every durable write goes through `Do`, which journals it. */
  class DataRoot {
    var disk: Disk
    ghost var journal: seq<Write>
    ghost const origin: Disk

    /** The journal accounts for everything that happened to the disk. */
    ghost predicate Valid()
      reads this
    {
      disk == Run(origin, journal)
    }

    constructor (d: Disk)
      ensures Valid() && disk == d && journal == [] && origin == d
    {
      disk, journal, origin := d, [], d;
    }

    method Do(w: Write)
      requires Valid()
      modifies this
      ensures Valid() && disk == Apply(old(disk), w) && journal == old(journal) + [w]
    {
      RunAppend(origin, journal, [w]);
      disk := Apply(disk, w);
      journal := journal + [w];
    }

    /**
     * Verify, then act on what is provably safe to fix; refused while the daemon is live.
     * What is returned is what it does not handle, and the stale embeds of tags a record
     * holds more than once: the second finding meets a tag that is already gone.
     */
    method Repair(daemonLive: bool) returns (kept: Result<seq<Finding>, Error>)
      requires Valid()
      modifies this
      ensures Valid() && (daemonLive <==> kept.Err?)
      ensures if daemonLive then journal == old(journal)
              else exists errors :: ReportOf(old(disk), errors)
                                    && journal == old(journal) + RepairPlan(old(disk), errors)
      ensures disk == if daemonLive then old(disk) else Repaired(old(disk))
      ensures kept.Ok? ==> forall f :: f in kept.value <==>
                Reports(old(disk), f)
                && (!Fixable(f) || (f.StaleEmbed? && multiset(old(disk).records[f.file].tags)[f.tag] >= 2))
    {
      if daemonLive {
        return Err(Refused);
      }
      var errors := Check(disk);
      var left := FixAll(errors);
      RepairedByAll(old(disk), Elements(errors));
      return Ok(left);
    }

    /** Act on the findings in order. */
    method FixAll(errors: seq<Finding>) returns (left: seq<Finding>)
      requires Valid() && forall f :: f in errors ==> Reports(disk, f)
      modifies this
      ensures Valid() && Acted(disk, journal, old(disk), errors, old(journal)) && HandsBack(left, errors)
    {
      left := [];
      ghost var d, met := disk, [];
      ActedNone(d, journal);
      for i := 0 to |errors|
        invariant met == errors[..i]
        invariant Valid() && Acted(disk, journal, d, met, old(journal)) && HandsBack(left, met)
      {
        left := FixNext(errors, i, left, d, met, old(journal));
        met := met + [errors[i]];
      }
      assert met == errors;
    }

    /** Act on the next finding, after those in `met`. */
    method FixNext(errors: seq<Finding>, i: nat, left: seq<Finding>, ghost d: Disk, ghost met: seq<Finding>,
                   ghost base: seq<Write>) returns (out: seq<Finding>)
      requires i < |errors| && forall f :: f in errors ==> Reports(d, f)
      requires Valid() && Acted(disk, journal, d, met, base) && HandsBack(left, met)
      modifies this
      ensures Valid() && Acted(disk, journal, d, met + [errors[i]], base) && HandsBack(out, met + [errors[i]])
    {
      var f := errors[i];
      ActedStep(disk, journal, d, met, base, f);
      HandsBackStep(left, met, f);
      var fixed := Fix(f);
      out := if fixed then left else left + [f];
    }

    /** Act on one finding; a stale embed that is already gone counts as not fixed. */
    method Fix(f: Finding) returns (fixed: bool)
      requires Valid() && (f.StaleEmbed? ==> f.file in disk.records)
      modifies this
      ensures Valid() && journal == old(journal) + FixWrites(old(disk), f)
      ensures disk == Act(old(disk), f)
      ensures fixed <==> Fixable(f) && (f.StaleEmbed? ==> f.tag in old(disk).records[f.file].tags)
    {
      fixed := true;
      match f {
        case StalePartial(p) => Do(RemovePartial(p));
        case UnreferencedBlob(b) => Do(RemoveBlob(b));
        case DanglingTag(t) => Do(WriteIndex(disk.index - {t}));
        case StaleEmbed(n, t) =>
          var r := disk.records[n];
          if t in r.tags {
            Do(RewriteFile(n, r.(tags := Minus(r.tags, {t}))));
          } else {
            fixed := false;
          }
        case _ => fixed := false;
      }
    }
  }

  /** Of the findings met, those not acted on come back, and the stale embeds met again. */
  ghost predicate HandsBack(left: seq<Finding>, met: seq<Finding>) {
    forall f :: f in left <==> f in met && (!Fixable(f) || (f.StaleEmbed? && multiset(met)[f] >= 2))
  }

  /** The findings in `met`, all of disk `d`, have been acted on since the journal was `base`. */
  ghost predicate Acted(disk: Disk, journal: seq<Write>, d: Disk, met: seq<Finding>, base: seq<Write>) {
    && (forall g :: g in met ==> Reports(d, g))
    && disk == RepairedBy(d, Elements(met)) && journal == base + RepairPlan(d, met)
  }

  lemma ActedNone(d: Disk, base: seq<Write>)
    ensures Acted(d, base, d, [], base)
  {
    RepairedByNone(d);
    assert Elements<Finding>([]) == {};
    assert base + [] == base;
  }

  lemma {:induction false} ActedDisk(d: Disk, met: seq<Finding>, f: Finding)
    requires Reports(d, f)
    ensures Act(RepairedBy(d, Elements(met)), f) == RepairedBy(d, Elements(met + [f]))
    ensures f.StaleEmbed? ==> var r := RepairedBy(d, Elements(met)).records;
                              f.file in r && (f.tag in r[f.file].tags <==> f !in met)
  {
    ElementsSnoc(met, f);
    ActStep(d, Elements(met), f);
    if f.StaleEmbed? { MetBefore(d, met, f); }
  }

  lemma {:induction false} ActedJournal(d: Disk, met: seq<Finding>, base: seq<Write>, f: Finding)
    requires forall g :: g in met ==> Reports(d, g)
    ensures base + RepairPlan(d, met) + FixWrites(RepairedBy(d, Elements(met)), f) == base + RepairPlan(d, met + [f])
  {
    RepairPlanSnoc(d, met, f);
  }

  lemma {:induction false} ActedStep(disk: Disk, journal: seq<Write>, d: Disk, met: seq<Finding>, base: seq<Write>,
                                     f: Finding)
    requires Acted(disk, journal, d, met, base) && Reports(d, f)
    ensures Acted(Act(disk, f), journal + FixWrites(disk, f), d, met + [f], base)
    ensures f.StaleEmbed? ==> f.file in disk.records && (f.tag in disk.records[f.file].tags <==> f !in met)
  {
    ActedDisk(d, met, f);
    ActedJournal(d, met, base, f);
  }

  /** A stale embed is met with its tag still there exactly the first time. */
  lemma MetBefore(d: Disk, met: seq<Finding>, f: Finding)
    requires f.StaleEmbed? && Reports(d, f)
    ensures f.tag in RepairedBy(d, Elements(met)).records[f.file].tags <==> f !in met
  {
  }

  lemma HandsBackStep(left: seq<Finding>, met: seq<Finding>, f: Finding)
    requires HandsBack(left, met)
    ensures HandsBack(if Fixable(f) && (f.StaleEmbed? ==> f !in met) then left else left + [f], met + [f])
  {
    assert f in met <==> multiset(met + [f])[f] >= 2;
    assert forall g :: g != f ==> multiset(met + [f])[g] == multiset(met)[g];
  }

  class Store {
    var tags: map<Tag, Id>
    const root: DataRoot

    /** A booted store: the index in memory is the one on disk. */
    constructor (data: DataRoot)
      ensures root == data && tags == data.disk.index
    {
      root := data;
      tags := data.disk.index;
    }

    method PutImage(r: Record)
      requires root.Valid()
      modifies this, root
      ensures root.Valid()
      ensures root.journal == old(root.journal) + PutPlan(old(root.disk), old(tags), r)
      ensures root.disk == Run(old(root.disk), PutPlan(old(root.disk), old(tags), r))
      ensures tags == Bind(old(tags), r.tags, r.id)
    {
      ghost var plan := PutPlan(root.disk, tags, r);
      root.Do(WriteRecord(r));
      EvictHolders(r);
      BindTags(r);
      root.Do(WriteIndex(tags));
      assert root.journal == old(root.journal) + plan;
      RunAppend(root.origin, old(root.journal), plan);
    }

    method BindTags(r: Record)
      modifies this`tags
      ensures tags == Bind(old(tags), r.tags, r.id)
    {
      for i := 0 to |r.tags|
        invariant tags == Bind(old(tags), r.tags[..i], r.id)
      {
        BindStep(old(tags), r.tags[..i], r.tags[i], r.id);
        tags := tags[r.tags[i] := r.id];
        assert r.tags[..i + 1] == r.tags[..i] + [r.tags[i]];
      }
      assert r.tags[..|r.tags|] == r.tags;
    }

    /** Take the tags of `r` out of the records the index says hold them. */
    method EvictHolders(r: Record)
      requires root.Valid()
      modifies root
      ensures root.Valid()
      ensures root.journal == old(root.journal) + EvictPlan(old(root.disk), tags, r.id, r.tags)
    {
      ghost var evict := EvictPlan(root.disk, tags, r.id, r.tags);
      ghost var done: seq<Write> := [];
      for i := 0 to |r.tags|
        invariant root.Valid() && root.journal == old(root.journal) + done
        invariant done + EvictPlan(root.disk, tags, r.id, r.tags[i..]) == evict
      {
        var t := r.tags[i];
        assert r.tags[i..][1..] == r.tags[i + 1..];
        if t in tags && tags[t] != r.id && tags[t] in root.disk.records {
          var prev := root.disk.records[tags[t]];
          if t in prev.tags {
            var w := WriteRecord(prev.(tags := Minus(prev.tags, {t})));
            done := done + [w];
            root.Do(w);
          }
        }
      }
    }

    method PutImageMerged(r: Record)
      requires root.Valid()
      modifies this, root
      ensures root.Valid()
      ensures root.journal == old(root.journal) + PutPlan(old(root.disk), old(tags), Merged(old(root.disk), r))
      ensures root.disk == Run(old(root.disk), PutPlan(old(root.disk), old(tags), Merged(old(root.disk), r)))
      ensures tags == Bind(old(tags), Merged(old(root.disk), r).tags, r.id)
      ensures WellNamed(old(root.disk).records) && old(tags) == old(root.disk).index ==>
                MergedIn(old(root.disk), root.disk, r)
    {
      if WellNamed(root.disk.records) { LoadMerges(root.disk, r); }
      var merged := r;
      if r.id in root.disk.records {
        var existing := root.disk.records[r.id];
        merged := merged.(tags := Union(merged.tags, existing.tags));
        merged := merged.(repoDigests := Union(merged.repoDigests, existing.repoDigests));
        if merged.manifestDigest == "" {
          merged := merged.(manifestDigest := existing.manifestDigest);
        }
      }
      PutImage(merged);
    }

    method Tag(id: Id, t: Tag) returns (res: Result<(), Error>)
      requires root.Valid() && tags == root.disk.index
      modifies this, root
      ensures root.Valid()
      ensures res.Err? <==> id !in old(root.disk).records
      ensures root.journal == old(root.journal) + Plan(old(root.disk), AddTag(id, t))
      ensures root.disk == Run(old(root.disk), Plan(old(root.disk), AddTag(id, t)))
      ensures WellNamed(old(root.disk).records) ==> tags == root.disk.index
      ensures WellNamed(old(root.disk).records) && res.Ok? ==>
                (Names(root.disk, id, t) <==> (t in old(root.disk).records[id].tags ==>
                                               t in old(root.disk).index && old(root.disk).index[t] == id))
    {
      if id !in root.disk.records {
        return Err(NoSuchImage);
      }
      if WellNamed(root.disk.records) { TagNamesIff(root.disk, id, t); }
      var r := root.disk.records[id];
      if t !in r.tags {
        if WellNamed(root.disk.records) { PutRun(root.disk, r.(tags := r.tags + [t])); }
        PutImage(r.(tags := r.tags + [t]));
      }
      return Ok(());
    }

    /** Drop the content a replaced revision referenced and no record references any more. */
    method GcReplacedLayers(was: Record)
      requires root.Valid()
      modifies root
      ensures root.Valid()
      ensures root.journal == old(root.journal) + GcPlan(old(root.disk), was)
      ensures root.disk == Run(old(root.disk), GcPlan(old(root.disk), was))
    {
      var usedLayers, usedBlobs := UsedLayers(root.disk.records), UsedBlobs(root.disk.records);
      GcLayers(usedLayers, was.diffIds);
      GcBlobs(usedBlobs, was.layerBlobs);
      assert root.journal == old(root.journal) + GcPlan(old(root.disk), was);
      RunAppend(root.origin, old(root.journal), GcPlan(old(root.disk), was));
    }

    method GcLayers(used: set<Digest>, diffIds: seq<Digest>)
      requires root.Valid()
      modifies root
      ensures root.Valid() && root.journal == old(root.journal) + LayerPlan(used, diffIds)
    {
      for i := 0 to |diffIds|
        invariant root.Valid() && root.journal == old(root.journal) + LayerPlan(used, diffIds[..i])
      {
        LayerPlanSnoc(used, diffIds[..i], diffIds[i]);
        assert diffIds[..i] + [diffIds[i]] == diffIds[..i + 1];
        if diffIds[i] !in used {
          root.Do(RemoveLayer(diffIds[i]));
        }
      }
      assert diffIds[..|diffIds|] == diffIds;
    }

    method GcBlobs(used: set<Digest>, blobs: seq<Digest>)
      requires root.Valid()
      modifies root
      ensures root.Valid() && root.journal == old(root.journal) + BlobPlan(used, blobs)
    {
      for i := 0 to |blobs|
        invariant root.Valid() && root.journal == old(root.journal) + BlobPlan(used, blobs[..i])
      {
        BlobPlanSnoc(used, blobs[..i], blobs[i]);
        assert blobs[..i] + [blobs[i]] == blobs[..i + 1];
        if blobs[i] !in used {
          root.Do(RemoveBlob(blobs[i]));
        }
      }
      assert blobs[..|blobs|] == blobs;
    }

    method DeleteRecord(r: Record)
      requires root.Valid()
      modifies root
      ensures root.Valid()
      ensures root.journal == old(root.journal) + DeletePlan(old(root.disk), tags, r)
      ensures root.disk == Run(old(root.disk), DeletePlan(old(root.disk), tags, r))
      ensures root.disk.index == tags
    {
      DeleteShape(root.disk, tags, r);
      DeleteRun(root.disk, tags, r);
      root.Do(WriteIndex(tags));
      root.Do(RemoveRecord(r.id));
      GcReplacedLayers(r);
      root.Do(RemoveBlob(r.id));
      assert root.journal == old(root.journal) + DeletePlan(old(root.disk), tags, r);
      RunAppend(root.origin, old(root.journal), DeletePlan(old(root.disk), tags, r));
    }

    /** Drop the index entries of the record's tags that still name it. */
    method UnbindTags(r: Record)
      modifies this`tags
      ensures tags == Unbind(old(tags), r.tags, r.id)
    {
      for i := 0 to |r.tags|
        invariant tags == Unbind(old(tags), r.tags[..i], r.id)
      {
        var t := r.tags[i];
        if t in tags && tags[t] == r.id {
          tags := tags - {t};
        }
        assert r.tags[..i + 1] == r.tags[..i] + [t];
      }
      assert r.tags[..|r.tags|] == r.tags;
    }

    /** Untag, deleting a record left without tags, or remove the image outright. */
    method RemoveImage(id: Id, tagKey: Option<Tag>) returns (res: Result<Record, Error>)
      requires root.Valid() && tags == root.disk.index
      modifies this, root
      ensures root.Valid()
      ensures res.Err? <==> id !in old(root.disk).records
      ensures var c := if tagKey.Some? then Untag(id, tagKey.value) else Remove(id);
              && root.journal == old(root.journal) + Plan(old(root.disk), c)
              && root.disk == Run(old(root.disk), Plan(old(root.disk), c))
      ensures tags == root.disk.index
      ensures res.Ok? ==> var was := old(root.disk).records[id];
                          res.value == if tagKey.Some? then was.(tags := Minus(was.tags, {tagKey.value})) else was
    {
      if id !in root.disk.records {
        return Err(NoSuchImage);
      }
      var record := root.disk.records[id];
      match tagKey {
        case Some(t) =>
          var r := record.(tags := Minus(record.tags, {t}));
          ghost var plan := UntagPlan(root.disk, tags, record, t);
          if t in tags && tags[t] == record.id {
            tags := tags - {t};
          }
          assert tags == Unbind(old(tags), [t], record.id);
          if r.tags == [] {
            DeleteRecord(r);
          } else {
            root.Do(WriteRecord(r));
            root.Do(WriteIndex(tags));
            assert root.journal == old(root.journal) + plan;
            RunAppend(root.origin, old(root.journal), plan);
          }
          return Ok(r);
        case None =>
          UnbindTags(record);
          DeleteRecord(record);
          return Ok(record);
      }
    }

    /**
     * The load path: merge the record in, then collect the layers of the revision it
     * replaced, unless a container still uses the image.
     */
    method LoadImage(r: Record, inUse: bool)
      requires root.Valid() && tags == root.disk.index
      modifies this, root
      ensures root.Valid()
      ensures var d := old(root.disk);
              var plan := if inUse then PutPlan(d, d.index, Merged(d, r)) else ReplacePlan(d, r);
              root.journal == old(root.journal) + plan && root.disk == Run(d, plan)
      ensures WellNamed(old(root.disk).records) ==>
                tags == root.disk.index && MergedIn(old(root.disk), root.disk, r)
    {
      if WellNamed(root.disk.records) { LoadMerges(root.disk, r); }
      MergeAndCollect(r, inUse);
    }

    method MergeAndCollect(r: Record, inUse: bool)
      requires root.Valid() && tags == root.disk.index
      modifies this, root
      ensures root.Valid()
      ensures var d := old(root.disk);
              var plan := if inUse then PutPlan(d, d.index, Merged(d, r)) else ReplacePlan(d, r);
              root.journal == old(root.journal) + plan && root.disk == Run(d, plan)
      ensures tags == Bind(old(tags), Merged(old(root.disk), r).tags, r.id)
    {
      ghost var d := root.disk;
      ghost var put := PutPlan(d, d.index, Merged(d, r));
      var collect := false;
      var was := r;
      if r.id in root.disk.records {
        was := root.disk.records[r.id];
        collect := (was.diffIds != r.diffIds || was.layerBlobs != r.layerBlobs) && !inUse;
      }
      PutImageMerged(r);
      if collect {
        ghost var gc := GcPlan(root.disk, was);
        GcReplacedLayers(was);
        TwoStages(old(root.journal), d, put, gc);
      }
    }
  }
}
