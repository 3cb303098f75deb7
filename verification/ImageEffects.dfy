/** What each image-store operation does, told by the disk before and the disk after. */
module ImageEffects {
  import opened Common
  import opened ImageDisk
  import opened ImagePlan
  import opened ImageProofs
  import opened ImageRuns
  import opened ImageLimits

  // --- puts ----------------------------------------------------------------

  /**
   * The tags in `tags` have moved to `id`: the index gives them to it and every other tag
   * to whom it did, and their former holders embed them no more and are otherwise as before.
   */
  ghost predicate TagsMoved(d: Disk, z: Disk, id: Id, tags: set<Tag>) {
    && (forall t :: t in z.index <==> t in d.index || t in tags)
    && (forall t :: t in z.index ==> z.index[t] == if t in tags then id else d.index[t])
    && z.records.Keys == d.records.Keys + {id}
    && (forall n :: n in d.records && n != id ==> HolderAfter(d, z, n, tags))
  }

  ghost predicate HolderAfter(d: Disk, z: Disk, n: Id, tags: set<Tag>)
    requires n in d.records
  {
    && n in z.records && z.records[n] == d.records[n].(tags := z.records[n].tags)
    && forall t :: t in z.records[n].tags <==>
         t in d.records[n].tags && !(t in tags && t in d.index && d.index[t] == n)
  }

  /** What the stored record of the same id brings along. */
  function Stored(d: Disk, id: Id): Record {
    if id in d.records then d.records[id] else Record(id, [], [], "", [], [])
  }

  /**
   * `r` has been merged into the store: its tags and those of the stored record name it,
   * it has its own layers, the digests of both, and a manifest digest if either had one.
   */
  ghost predicate MergedIn(d: Disk, z: Disk, r: Record) {
    var was := Stored(d, r.id);
    && TagsMoved(d, z, r.id, Elements(r.tags) + Elements(was.tags))
    && var m := z.records[r.id];
       && m.id == r.id && m.diffIds == r.diffIds && m.layerBlobs == r.layerBlobs
       && (forall t :: t in m.tags <==> t in r.tags || t in was.tags)
       && (forall x :: x in m.repoDigests <==> x in r.repoDigests || x in was.repoDigests)
       && m.manifestDigest == if r.manifestDigest != "" then r.manifestDigest else was.manifestDigest
  }

  lemma PutMoves(d: Disk, r: Record)
    ensures TagsMoved(d, PutResult(d, r), r.id, Elements(r.tags)) && PutResult(d, r).records[r.id] == r
  {
    var z := PutResult(d, r);
    forall n | n in d.records && n != r.id ensures HolderAfter(d, z, n, Elements(r.tags)) {
      forall t ensures t in z.records[n].tags <==>
                       t in d.records[n].tags && !(t in r.tags && t in d.index && d.index[t] == n)
      {
        PutOther(d, r, n, t);
      }
    }
  }

  lemma PutMerges(d: Disk, r: Record)
    ensures MergedIn(d, PutResult(d, Merged(d, r)), r)
  {
    var m := Merged(d, r);
    PutMoves(d, m);
    assert Elements(m.tags) == Elements(r.tags) + Elements(Stored(d, r.id).tags);
  }

  /** Content and collection touch neither records nor index. */
  lemma MergedAround(d: Disk, e: Disk, p: Disk, z: Disk, r: Record)
    requires MergedIn(e, p, r) && e.records == d.records && e.index == d.index
    requires z.records == p.records && z.index == p.index
    ensures MergedIn(d, z, r)
  {
    assert Stored(d, r.id) == Stored(e, r.id);
    forall n | n in d.records && n != r.id
      ensures HolderAfter(d, z, n, Elements(r.tags) + Elements(Stored(d, r.id).tags))
    {
      assert HolderAfter(e, p, n, Elements(r.tags) + Elements(Stored(e, r.id).tags));
    }
  }

  /** An image that is loaded is merged in, whatever tags and records the store held. */
  lemma InstallMerges(d: Disk, r: Record, content: seq<Write>)
    requires WellNamed(d.records) && ContentFor(content, r)
    ensures var z := Run(d, Plan(d, Install(r, content)));
            && MergedIn(d, z, r)
            && (forall t :: t in r.tags ==> t in z.index && z.index[t] == r.id && t in z.records[r.id].tags)
            && (forall t :: t in d.index && d.index[t] == r.id ==> t in z.index && z.index[t] == r.id)
  {
    var e := Run(d, content);
    ContentRun(d, content, r);
    InstallRun(d, r, content);
    PutMerges(e, r);
    MergedAround(d, e, PutResult(e, Merged(e, r)), Run(d, Plan(d, Install(r, content))), r);
  }

  /** The two forms of the load path, once the content is there. */
  lemma LoadMerges(d: Disk, r: Record)
    requires WellNamed(d.records)
    ensures var put, z := Run(d, PutPlan(d, d.index, Merged(d, r))), Run(d, ReplacePlan(d, r));
            && MergedIn(d, put, r) && put.index == Bind(d.index, Merged(d, r).tags, r.id)
            && MergedIn(d, z, r) && z.index == put.index
  {
    PutRun(d, Merged(d, r));
    PutMerges(d, r);
    InstallMerges(d, r, []);
    InstallRun(d, r, []);
    assert Plan(d, Install(r, [])) == ReplacePlan(d, r);
  }

  /** So is one that is pulled or built. */
  lemma PullMerges(d: Disk, r: Record, content: seq<Write>)
    requires WellNamed(d.records) && ContentFor(content, r)
    ensures var z := Run(d, PullPlan(d, r, content));
            && MergedIn(d, z, r)
            && (forall t :: t in r.tags ==> t in z.index && z.index[t] == r.id && t in z.records[r.id].tags)
            && (forall t :: t in d.index && d.index[t] == r.id ==> t in z.index && z.index[t] == r.id)
  {
    var e := Run(d, content);
    ContentRun(d, content, r);
    PullRun(d, r, content);
    PutMerges(e, r);
    MergedAround(d, e, PutResult(e, Merged(e, r)), Run(d, PullPlan(d, r, content)), r);
  }

  // --- tags ------------------------------------------------------------------

  /** The index gives `t` to `id`, and the record embeds it. */
  ghost predicate Names(d: Disk, id: Id, t: Tag) {
    t in d.index && d.index[t] == id && id in d.records && t in d.records[id].tags
  }

  /** A new tag goes last and moves to the record, as do the tags it embeds; one it embeds already changes nothing. */
  lemma AddTagDoes(d: Disk, id: Id, t: Tag)
    requires WellNamed(d.records)
    ensures var z := Run(d, Plan(d, AddTag(id, t)));
            if id in d.records && t !in d.records[id].tags then
              && TagsMoved(d, z, id, Elements(d.records[id].tags) + {t})
              && z.records[id] == d.records[id].(tags := d.records[id].tags + [t])
            else z == d
  {
    if id in d.records && t !in d.records[id].tags {
      var r := d.records[id].(tags := d.records[id].tags + [t]);
      PutRun(d, r);
      PutMoves(d, r);
      ElementsSnoc(d.records[id].tags, t);
    }
  }

  /**
   * Tagging succeeds on every stored image, and the tag then names it, except in one case:
   * the record embeds the tag and the index gives it to another, or to none.
   */
  lemma TagNamesIff(d: Disk, id: Id, t: Tag)
    requires WellNamed(d.records) && id in d.records
    ensures Names(Run(d, Plan(d, AddTag(id, t))), id, t)
            <==> (t in d.records[id].tags ==> t in d.index && d.index[t] == id)
  {
    AddTagDoes(d, id, t);
  }

  /** Two images, one embedding the tag the index gives to the other: what a put that died early leaves. */
  const CONTESTED := Disk(map["t" := "a"], map["a" := Record("a", ["t"], [], "", [], []),
                                               "b" := Record("b", ["t"], [], "", [], [])],
                          {"a", "b"}, {}, {}, {}, {}, {}, {})

  /** There tagging the second image with the tag succeeds and changes nothing. */
  lemma ContestedTagStays()
    ensures "b" in CONTESTED.records && WellNamed(CONTESTED.records)
    ensures Run(CONTESTED, Plan(CONTESTED, AddTag("b", "t"))) == CONTESTED && !Names(CONTESTED, "b", "t")
  {
    assert "a" != "b";
    AddTagDoes(CONTESTED, "b", "t");
  }

  /** It is what a put that takes a tag from its one holder leaves after its first write. */
  lemma ContestedByCrash()
    ensures var before := CONTESTED.(records := CONTESTED.records - {"b"});
            var put := Plan(before, Install(CONTESTED.records["b"], []));
            |put| > 1 && Run(before, put[..1]) == CONTESTED
  {
    var before := CONTESTED.(records := CONTESTED.records - {"b"});
    var r := CONTESTED.records["b"];
    var put := Plan(before, Install(r, []));
    assert put == PutPlan(before, before.index, r);
    assert put[..1] == [WriteRecord(r)];
    RunOne(before, WriteRecord(r));
    assert before.records["b" := r] == CONTESTED.records;
  }

  /** An untag that leaves the record a tag takes just that tag, from the record and from its index entry. */
  lemma UntagDoes(d: Disk, id: Id, t: Tag)
    requires WellNamed(d.records) && id in d.records && exists u :: u in d.records[id].tags && u != t
    ensures var z := Run(d, Plan(d, Untag(id, t)));
            && z.records.Keys == d.records.Keys
            && (forall n :: n in d.records && n != id ==> z.records[n] == d.records[n])
            && z.records[id] == d.records[id].(tags := z.records[id].tags)
            && (forall u :: u in z.records[id].tags <==> u in d.records[id].tags && u != t)
            && IndexLess(d, z, id, {t})
            && z == d.(records := z.records, index := z.index)
  {
    var u :| u in d.records[id].tags && u != t;
    assert u in Minus(d.records[id].tags, {t});
    UntagRun(d, id, t);
  }

  /** The index has lost its entries for `id` under `tags`, and nothing else. */
  ghost predicate IndexLess(d: Disk, z: Disk, id: Id, tags: set<Tag>) {
    && (forall t :: t in z.index <==> t in d.index && !(t in tags && d.index[t] == id))
    && (forall t :: t in z.index ==> z.index[t] == d.index[t])
  }

  /** Nothing but the record `id` refers to the layer, or to the layer blob. */
  ghost predicate OnlyLayerOf(d: Disk, id: Id, l: Digest) {
    id in d.records && l in d.records[id].diffIds
    && forall n :: n in d.records && n != id ==> l !in d.records[n].diffIds
  }

  ghost predicate OnlyBlobOf(d: Disk, id: Id, b: Digest) {
    id in d.records && b in d.records[id].layerBlobs
    && forall n :: n in d.records && n != id ==> b !in d.records[n].layerBlobs
  }

  /** Gone are the record, its index entries under `tags`, its config and the content only it referred to. */
  ghost predicate Gone(d: Disk, z: Disk, id: Id, tags: set<Tag>) {
    && z.records == d.records - {id} && IndexLess(d, z, id, tags)
    && (forall l :: l in z.layers <==> l in d.layers && !OnlyLayerOf(d, id, l))
    && (forall b :: b in z.blobs <==> b in d.blobs && b != id && !OnlyBlobOf(d, id, b))
    && z == d.(records := z.records, index := z.index, layers := z.layers, blobs := z.blobs)
  }

  lemma DeleteGone(d: Disk, r: Record, tags: seq<Tag>)
    requires r.id in d.records && r.diffIds == d.records[r.id].diffIds && r.layerBlobs == d.records[r.id].layerBlobs
    ensures Gone(d, DeleteResult(d, Unbind(d.index, tags, r.id), r), r.id, Elements(tags))
  {
    var e := d.records - {r.id};
    assert forall n :: n in e <==> n in d.records && n != r.id;
    forall l | l in r.diffIds ensures l !in UsedLayers(e) <==> OnlyLayerOf(d, r.id, l) {
      if n :| n in d.records && n != r.id && l in d.records[n].diffIds { assert n in e && l in e[n].diffIds; }
    }
    forall b | b in r.layerBlobs ensures b !in UsedBlobs(e) <==> OnlyBlobOf(d, r.id, b) {
      if n :| n in d.records && n != r.id && b in d.records[n].layerBlobs { assert n in e && b in e[n].layerBlobs; }
    }
  }

  /** Removing an image takes its record, the index entries of the tags it embeds, and what only it referred to. */
  lemma RemoveDoes(d: Disk, id: Id)
    requires WellNamed(d.records)
    ensures var z := Run(d, Plan(d, Remove(id)));
            if id in d.records then Gone(d, z, id, Elements(d.records[id].tags)) else z == d
  {
    if id in d.records {
      var r := d.records[id];
      DeleteRun(d, Unbind(d.index, r.tags, id), r);
      DeleteGone(d, r, r.tags);
    }
  }

  /** So does an untag that leaves it none, except that it drops no index entry but that of the tag. */
  lemma LastUntagDoes(d: Disk, id: Id, t: Tag)
    requires WellNamed(d.records) && id in d.records && forall u :: u in d.records[id].tags ==> u == t
    ensures Gone(d, Run(d, Plan(d, Untag(id, t))), id, {t})
  {
    MinusAll(d.records[id].tags, {t});
    var r := d.records[id].(tags := []);
    DeleteRun(d, Unbind(d.index, [t], id), r);
    DeleteGone(d, r, [t]);
    assert Elements([t]) == {t};
  }

  /** A load takes, of the revision it replaced, the content no record refers to any more; a changed revision only. */
  lemma InstallCollects(d: Disk, r: Record, content: seq<Write>)
    requires WellNamed(d.records) && ContentFor(content, r)
    ensures var e, z := Run(d, content), Run(d, Plan(d, Install(r, content)));
            var was := Stored(d, r.id);
            && (forall l :: l in z.layers <==>
                  l in e.layers && !(l in was.diffIds && forall n :: n in z.records ==> l !in z.records[n].diffIds))
            && (forall b :: b in z.blobs <==>
                  b in e.blobs
                  && !(b in was.layerBlobs && forall n :: n in z.records ==> b !in z.records[n].layerBlobs))
  {
    var e, z := Run(d, content), Run(d, Plan(d, Install(r, content)));
    ContentRun(d, content, r);
    InstallRun(d, r, content);
    PutContent(e, Merged(e, r));
    forall l ensures l in UsedLayers(z.records) <==> exists n :: n in z.records && l in z.records[n].diffIds {}
    forall b ensures b in UsedBlobs(z.records) <==> exists n :: n in z.records && b in z.records[n].layerBlobs {}
    assert z.records[r.id].diffIds == r.diffIds && z.records[r.id].layerBlobs == r.layerBlobs;
  }
}
