/** fsck-clean as an invariant of every run, and exactly when it is one. */
module ImageRuns {
  import opened Common
  import opened ImageDisk
  import opened ImagePlan
  import opened ImageProofs

  // --- tag ---------------------------------------------------------------

  /** Tagging keeps the disk tidy, whether or not all indexed tags are embedded. */
  lemma AddTagKeepsTidy(d: Disk, id: Id, t: Tag)
    requires Tidy(d) && KindsApart(d.records)
    ensures var z := Run(d, Plan(d, AddTag(id, t))); Tidy(z) && KindsApart(z.records)
  {
    if id in d.records && t !in d.records[id].tags {
      var r := d.records[id].(tags := d.records[id].tags + [t]);
      assert RecordSound(d, id, d.records[id]);
      SoundWellNamed(d);
      PutRun(d, r);
      PutKeepsSound(d, r);
      PutAgrees(d, r);
      PutContent(d, r);
      SameContentKeeps(d, PutResult(d, r));
    }
  }

  lemma AddTagKeepsCoherent(d: Disk, id: Id, t: Tag)
    requires Coherent(d)
    ensures Coherent(Run(d, Plan(d, AddTag(id, t))))
  {
    AddTagKeepsTidy(d, id, t);
    if id in d.records && t !in d.records[id].tags {
      var r := d.records[id].(tags := d.records[id].tags + [t]);
      assert RecordSound(d, id, d.records[id]);
      SoundWellNamed(d);
      PutRun(d, r);
      PutKeepsTags(d, r);
    }
  }

  // --- untag and remove --------------------------------------------------

  function DeleteResult(d: Disk, index: map<Tag, Id>, r: Record): Disk {
    var g := GcResult(d.(index := index, records := d.records - {r.id}), r);
    g.(blobs := g.blobs - {r.id})
  }

  lemma {:induction false} DeleteRun(d: Disk, index: map<Tag, Id>, r: Record)
    ensures Run(d, DeletePlan(d, index, r)) == DeleteResult(d, index, r)
  {
    var e := d.(index := index, records := d.records - {r.id});
    var gc, last := GcPlan(e, r), [RemoveBlob(r.id)];
    assert gc == GcPlan(Apply(d, RemoveRecord(r.id)), r);
    GcRun(e, r);
    RunAppend(e, gc, last);
    assert DeletePlan(d, index, r)[1..][1..] == gc + last;
  }

  /** The index the removal of `id` saves: it drops the tags the record embeds, no others. */
  ghost predicate DropsIndexOf(d: Disk, index: map<Tag, Id>, id: Id) {
    && index.Keys <= d.index.Keys
    && forall t :: t in d.index ==>
         (t in index && index[t] == d.index[t] && d.index[t] != id) || (t !in index && d.index[t] == id)
  }

  lemma {:induction false} DeleteSound(d: Disk, index: map<Tag, Id>, r: Record)
    requires Sound(d) && TagsAgree(d) && KindsApart(d.records)
    requires r.id in d.records && DropsIndexOf(d, index, r.id)
    requires r.diffIds == d.records[r.id].diffIds && r.layerBlobs == d.records[r.id].layerBlobs
    ensures var z := DeleteResult(d, index, r);
            Sound(z) && TagsAgree(z) && KindsApart(z.records) && (Embedded(d) ==> Embedded(z))
  {
    var e := d.(index := index, records := d.records - {r.id});
    forall n | n in e.records ensures n !in r.layerBlobs {
      assert d.records[n].id !in d.records[r.id].layerBlobs;
    }
    forall n | n in e.records ensures RecordSound(e, n, e.records[n]) {
      assert RecordSound(d, n, d.records[n]);
    }
    GcKeepsSound(e, r);
    var g, z := GcResult(e, r), DeleteResult(d, index, r);
    forall n | n in z.records ensures RecordSound(z, n, z.records[n]) {
      assert RecordSound(g, n, g.records[n]);
    }
  }

  lemma DeleteNoGarbage(d: Disk, index: map<Tag, Id>, r: Record)
    requires NoGarbage(d) && r.id in d.records && d.records[r.id].id == r.id
    requires r.diffIds == d.records[r.id].diffIds && r.layerBlobs == d.records[r.id].layerBlobs
    ensures NoGarbage(DeleteResult(d, index, r))
  {
    var e := d.(index := index, records := d.records - {r.id}, blobs := d.blobs - {r.id});
    forall b | b in e.blobs && b !in r.layerBlobs ensures BlobRooted(e, b) {
      if b !in d.cacheBlobs {
        var n :| n in d.records && b in RecordBlobRefs(d.records[n]);
        assert n in e.records && b in RecordBlobRefs(e.records[n]);
      }
    }
    forall l | l in e.layers && l !in r.diffIds ensures LayerRooted(e, l) {
      if l !in d.cacheLayers {
        var n :| n in d.records && l in d.records[n].diffIds;
        assert n in e.records && l in e.records[n].diffIds;
      }
    }
    GcKeepsNoGarbage(e, r);
    assert DeleteResult(d, index, r) == GcResult(e, r);
  }

  lemma RemoveKeepsCoherent(d: Disk, id: Id)
    requires Coherent(d)
    ensures Coherent(Run(d, Plan(d, Remove(id))))
  {
    if id in d.records {
      var r := d.records[id];
      assert RecordSound(d, id, r);
      var index := Unbind(d.index, r.tags, r.id);
      DeleteRun(d, index, r);
      DeleteSound(d, index, r);
      DeleteNoGarbage(d, index, r);
    }
  }

  function UntagResult(d: Disk, r: Record, t: Tag): Disk {
    d.(records := d.records[r.id := r.(tags := Minus(r.tags, {t}))], index := Unbind(d.index, [t], r.id))
  }

  /** The two writes of an untag that leaves the record a tag. */
  lemma {:induction false} UntagRun(d: Disk, id: Id, t: Tag)
    requires id in d.records && Minus(d.records[id].tags, {t}) != []
    ensures Run(d, Plan(d, Untag(id, t))) == UntagResult(d, d.records[id], t)
  {
    var r := d.records[id].(tags := Minus(d.records[id].tags, {t}));
    var index := Unbind(d.index, [t], r.id);
    assert [WriteRecord(r)] + [] + [WriteIndex(index)] == [WriteRecord(r), WriteIndex(index)];
    RunAround(d, WriteRecord(r), [], WriteIndex(index));
  }

  lemma {:induction false} UntagTags(d: Disk, id: Id, t: Tag)
    requires WellNamed(d.records) && TagsAgree(d) && id in d.records
    ensures var z := UntagResult(d, d.records[id], t); TagsAgree(z) && (Embedded(d) ==> Embedded(z))
  {
  }

  /** An untag that leaves the record a tag keeps the disk tidy, whether or not all indexed tags are embedded. */
  lemma UntagResultTidy(d: Disk, id: Id, t: Tag)
    requires Tidy(d) && KindsApart(d.records) && id in d.records
    ensures var z := UntagResult(d, d.records[id], t); Tidy(z) && KindsApart(z.records)
  {
    var z := UntagResult(d, d.records[id], t);
    assert RecordSound(d, id, d.records[id]);
    SoundWellNamed(d);
    UntagTags(d, id, t);
    SameContentKeeps(d, z);
    forall n | n in z.records ensures RecordSound(z, n, z.records[n]) {
      assert RecordSound(d, n, d.records[n]);
    }
  }

  lemma UntagKeepsCoherent(d: Disk, id: Id, t: Tag)
    requires Coherent(d)
    ensures Coherent(Run(d, Plan(d, Untag(id, t))))
  {
    if id in d.records {
      SoundWellNamed(d);
      var r := d.records[id].(tags := Minus(d.records[id].tags, {t}));
      if r.tags == [] {
        var index := Unbind(d.index, [t], id);
        DeleteRun(d, index, r);
        DeleteSound(d, index, r);
        DeleteNoGarbage(d, index, r);
      } else {
        UntagRun(d, id, t);
        UntagResultTidy(d, id, t);
        UntagTags(d, id, t);
      }
    }
  }

  // --- runs --------------------------------------------------------------

  /** A command whose caller did its part: content for the record it installs is there. */
  ghost predicate Legal(d: Disk, c: Command) {
    c.Install? ==> Installable(d, c.record, c.content)
  }

  ghost predicate LegalRun(d: Disk, cs: seq<Command>)
    decreases |cs|
  {
    cs != [] ==> Legal(d, cs[0]) && LegalRun(Run(d, Plan(d, cs[0])), cs[1..])
  }

  lemma StepKeepsCoherent(d: Disk, c: Command)
    requires Coherent(d) && Legal(d, c)
    ensures Coherent(Run(d, Plan(d, c)))
  {
    match c
    case Install(r, content) => InstallKeepsCoherent(d, r, content);
    case AddTag(id, t) => AddTagKeepsCoherent(d, id, t);
    case Untag(id, t) => UntagKeepsCoherent(d, id, t);
    case Remove(id) => RemoveKeepsCoherent(d, id);
  }

  lemma {:induction false} RunKeepsCoherent(d: Disk, cs: seq<Command>)
    requires Coherent(d) && LegalRun(d, cs)
    ensures Coherent(Execute(d, cs))
    decreases |cs|
  {
    if cs != [] {
      StepKeepsCoherent(d, cs[0]);
      RunKeepsCoherent(Run(d, Plan(d, cs[0])), cs[1..]);
    }
  }

  /** Tag index and embedded tags are inverse relations. */
  ghost predicate MutuallyInverse(d: Disk) {
    forall n, t :: Inverse(d, n, t)
  }

  lemma CoherentInverse(d: Disk)
    requires Coherent(d)
    ensures MutuallyInverse(d)
  {
    forall n, t ensures Inverse(d, n, t) {
      if n in d.records { assert RecordSound(d, n, d.records[n]); }
    }
  }

  // --- deletions ---------------------------------------------------------

  /** The index names `id` only under tags in `tags`. */
  ghost predicate IndexedOnlyAs(d: Disk, id: Id, tags: seq<Tag>) {
    forall t :: t in d.index && d.index[t] == id ==> t in tags
  }

  /** The command takes its record off the disk: a removal, or an untag of the last tag. */
  predicate Deletes(d: Disk, c: Command) {
    match c
    case Untag(id, t) => id in d.records && Minus(d.records[id].tags, {t}) == []
    case Remove(id) => id in d.records
    case _ => false
  }

  /** The tags a deletion takes out of the index. */
  function Dropped(d: Disk, c: Command): seq<Tag>
    requires Deletes(d, c)
  {
    if c.Untag? then [c.tag] else d.records[c.id].tags
  }

  /** A deletion takes every tag out of the index that names its record. */
  ghost predicate DropsAll(d: Disk, c: Command) {
    Deletes(d, c) ==> IndexedOnlyAs(d, c.id, Dropped(d, c))
  }

  /** The record as a deletion last sees it. */
  function Deleted(d: Disk, c: Command): Record
    requires Deletes(d, c)
  {
    if c.Untag? then d.records[c.id].(tags := []) else d.records[c.id]
  }

  lemma DeletesPlan(d: Disk, c: Command)
    requires Deletes(d, c) && d.records[c.id].id == c.id
    ensures Plan(d, c) == DeletePlan(d, Unbind(d.index, Dropped(d, c), c.id), Deleted(d, c))
  {
  }

  /** A deletion leaves a tidy disk tidy exactly when it drops every tag of its record. */
  lemma DeleteTidyIff(d: Disk, c: Command)
    requires Tidy(d) && KindsApart(d.records) && Deletes(d, c)
    ensures var z := Run(d, Plan(d, c)); (Tidy(z) <==> DropsAll(d, c)) && KindsApart(z.records)
  {
    assert RecordSound(d, c.id, d.records[c.id]);
    var r, index := Deleted(d, c), Unbind(d.index, Dropped(d, c), c.id);
    var z := DeleteResult(d, index, r);
    DeletesPlan(d, c);
    DeleteRun(d, index, r);
    DeleteNoGarbage(d, index, r);
    if DropsAll(d, c) {
      DeleteSound(d, index, r);
    } else {
      var t :| t in d.index && d.index[t] == c.id && t !in Dropped(d, c);
      assert t in z.index && z.index[t] !in z.records;
    }
  }

  // --- what every step and every run keeps -------------------------------

  /** From any tidy disk the next one is tidy exactly when a deletion drops every tag of its record. */
  lemma StepTidyIff(d: Disk, c: Command)
    requires Tidy(d) && KindsApart(d.records) && Legal(d, c)
    ensures var z := Run(d, Plan(d, c)); (Tidy(z) <==> DropsAll(d, c)) && KindsApart(z.records)
  {
    if Deletes(d, c) {
      DeleteTidyIff(d, c);
    } else {
      match c
      case Install(r, content) => InstallKeepsTidy(d, r, content);
      case AddTag(id, t) => AddTagKeepsTidy(d, id, t);
      case Untag(id, t) =>
        if id in d.records {
          UntagRun(d, id, t);
          UntagResultTidy(d, id, t);
        }
      case Remove(id) =>
    }
  }

  /** The stray directories after a command; only the unpacking of an install's content touches them. */
  function StraysAfter(d: Disk, c: Command): set<Stray> {
    if c.Install? then Run(d, c.content).strays else d.strays
  }

  lemma PutNames(d: Disk, r: Record)
    requires WellNamed(d.records)
    ensures WellNamed(PutResult(d, r).records)
  {
    PutContent(d, r);
  }

  lemma InstallStrays(d: Disk, r: Record, content: seq<Write>)
    requires WellNamed(d.records) && ContentFor(content, r)
    ensures var z := Run(d, Plan(d, Install(r, content)));
            z.strays == Run(d, content).strays && z.cacheStrays == d.cacheStrays && WellNamed(z.records)
  {
    ContentRun(d, content, r);
    InstallRun(d, r, content);
    PutNames(Run(d, content), Merged(Run(d, content), r));
  }

  lemma AddTagStrays(d: Disk, id: Id, t: Tag)
    requires WellNamed(d.records)
    ensures var z := Run(d, Plan(d, AddTag(id, t)));
            z.strays == d.strays && z.cacheStrays == d.cacheStrays && WellNamed(z.records)
  {
    if id in d.records && t !in d.records[id].tags {
      PutRun(d, d.records[id].(tags := d.records[id].tags + [t]));
      PutNames(d, d.records[id].(tags := d.records[id].tags + [t]));
    }
  }

  lemma DeletionStrays(d: Disk, c: Command)
    requires WellNamed(d.records) && Deletes(d, c)
    ensures var z := Run(d, Plan(d, c));
            z.strays == d.strays && z.cacheStrays == d.cacheStrays && WellNamed(z.records)
  {
    DeletesPlan(d, c);
    DeleteRun(d, Unbind(d.index, Dropped(d, c), c.id), Deleted(d, c));
  }

  lemma StepStrays(d: Disk, c: Command)
    requires WellNamed(d.records) && Legal(d, c)
    ensures var z := Run(d, Plan(d, c));
            z.strays == StraysAfter(d, c) && z.cacheStrays == d.cacheStrays && WellNamed(z.records)
  {
    if Deletes(d, c) {
      DeletionStrays(d, c);
    } else {
      match c
      case Install(r, content) => InstallStrays(d, r, content);
      case AddTag(id, t) => AddTagStrays(d, id, t);
      case Untag(id, t) => if id in d.records { UntagRun(d, id, t); }
      case Remove(id) =>
    }
  }

  /**
   * From any clean store the next one is clean exactly when a deletion drops every tag
   * of its record and an install leaves no stray directory the builder cache does not name.
   */
  lemma StepCleanIff(d: Disk, c: Command)
    requires Clean(d) && KindsApart(d.records) && Legal(d, c)
    ensures Clean(Run(d, Plan(d, c))) <==> DropsAll(d, c) && StraysAfter(d, c) <= d.cacheStrays
  {
    CleanIff(d);
    CleanIff(Run(d, Plan(d, c)));
    SoundWellNamed(d);
    StepTidyIff(d, c);
    StepStrays(d, c);
  }

  /** Every deletion of the run drops every tag of its record. */
  ghost predicate Careful(d: Disk, cs: seq<Command>)
    decreases |cs|
  {
    cs != [] ==> DropsAll(d, cs[0]) && Careful(Run(d, Plan(d, cs[0])), cs[1..])
  }

  /** No install of the run leaves a stray directory the builder cache does not name. */
  ghost predicate LeavesNoStrays(d: Disk, cs: seq<Command>)
    decreases |cs|
  {
    cs != [] ==> StraysAfter(d, cs[0]) <= d.cacheStrays && LeavesNoStrays(Run(d, Plan(d, cs[0])), cs[1..])
  }

  ghost predicate TidyThroughout(d: Disk, cs: seq<Command>)
    decreases |cs|
  {
    Tidy(d) && (cs != [] ==> TidyThroughout(Run(d, Plan(d, cs[0])), cs[1..]))
  }

  ghost predicate CleanThroughout(d: Disk, cs: seq<Command>)
    decreases |cs|
  {
    Clean(d) && (cs != [] ==> CleanThroughout(Run(d, Plan(d, cs[0])), cs[1..]))
  }

  /** Every store along a run from a tidy one is tidy exactly when every deletion drops all its tags. */
  lemma {:induction false} RunTidyIff(d: Disk, cs: seq<Command>)
    requires Tidy(d) && KindsApart(d.records) && LegalRun(d, cs)
    ensures TidyThroughout(d, cs) <==> Careful(d, cs)
    ensures TidyThroughout(d, cs) ==> Tidy(Execute(d, cs))
    decreases |cs|
  {
    if cs != [] {
      StepTidyIff(d, cs[0]);
      if DropsAll(d, cs[0]) {
        RunTidyIff(Run(d, Plan(d, cs[0])), cs[1..]);
      }
    }
  }

  /**
   * From a store fsck calls clean, every store along the run is one fsck calls clean,
   * exactly when every deletion drops every tag the index gives its record and no
   * install leaves a stray directory.
   */
  lemma {:induction false} EveryRunStaysClean(d: Disk, cs: seq<Command>)
    requires Clean(d) && KindsApart(d.records) && LegalRun(d, cs)
    ensures CleanThroughout(d, cs) <==> Careful(d, cs) && LeavesNoStrays(d, cs)
    ensures CleanThroughout(d, cs) ==> Clean(Execute(d, cs))
    decreases |cs|
  {
    if cs != [] {
      var z := Run(d, Plan(d, cs[0]));
      StepCleanIff(d, cs[0]);
      if Clean(z) {
        CleanIff(d);
        StepTidyIff(d, cs[0]);
        EveryRunStaysClean(z, cs[1..]);
      }
    }
  }

  /** Where every indexed tag is embedded, every deletion drops all the tags of its record. */
  lemma CoherentDropsAll(d: Disk, c: Command)
    requires Coherent(d)
    ensures DropsAll(d, c)
  {
    if c.Untag? && Deletes(d, c) {
      forall t | t in d.index && d.index[t] == c.id ensures t in [c.tag] {
        assert t in d.records[c.id].tags;
        assert t !in Minus(d.records[c.id].tags, {c.tag});
      }
    }
  }

  /**
   * Over every run from a tidy store whose indexed tags are all embedded: every deletion
   * is careful, every store tidy, and a tag is embedded in a record exactly when the
   * index maps it there.
   */
  lemma {:induction false} EveryRunKeepsInverse(d: Disk, cs: seq<Command>)
    requires Coherent(d) && LegalRun(d, cs)
    ensures Careful(d, cs) && Tidy(Execute(d, cs)) && MutuallyInverse(Execute(d, cs))
    decreases |cs|
  {
    if cs == [] {
      CoherentInverse(d);
    } else {
      CoherentDropsAll(d, cs[0]);
      StepKeepsCoherent(d, cs[0]);
      EveryRunKeepsInverse(Run(d, Plan(d, cs[0])), cs[1..]);
    }
  }
}
