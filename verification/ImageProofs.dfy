/** What every image-store operation keeps, and what a crash in the middle of one can leave. */
module ImageProofs {
  import opened Common
  import opened ImageDisk
  import opened ImagePlan

  /** Every indexed tag is embedded in the record it names. */
  ghost predicate Embedded(d: Disk) {
    forall t :: t in d.index ==> d.index[t] in d.records && t in d.records[d.index[t]].tags
  }

  /** No config digest doubles as a layer digest. */
  ghost predicate KindsApart(records: map<Id, Record>) {
    forall m, n :: m in records && n in records ==> records[m].id !in records[n].layerBlobs
  }

  /** The inductive invariant: fsck-clean, tags mutually inverse, digest kinds apart. */
  ghost predicate Coherent(d: Disk) {
    Tidy(d) && Embedded(d) && KindsApart(d.records)
  }

  ghost predicate WellNamed(records: map<Id, Record>) {
    forall n :: n in records ==> records[n].id == n
  }

  // --- the effect of the plans, in closed form ----------------------------

  /** The tags of `tags` that the index gives to `n`. */
  function Held(index: map<Tag, Id>, n: Id, tags: set<Tag>): set<Tag> {
    set t | t in tags && t in index && index[t] == n
  }

  /** The records once `id` has taken `tags` from the holders the index names. */
  function AfterEvict(records: map<Id, Record>, index: map<Tag, Id>, id: Id, tags: set<Tag>): map<Id, Record> {
    map n | n in records ::
      if n == id then records[n]
      else records[n].(tags := Minus(records[n].tags, Held(index, n, tags)))
  }

  function PutResult(d: Disk, r: Record): Disk {
    d.(records := AfterEvict(d.records[r.id := r], d.index, r.id, Elements(r.tags)),
       index := Bind(d.index, r.tags, r.id))
  }

  function GcResult(d: Disk, was: Record): Disk {
    d.(layers := d.layers - (Elements(was.diffIds) - UsedLayers(d.records)),
       blobs := d.blobs - (Elements(was.layerBlobs) - UsedBlobs(d.records)))
  }

  lemma AfterEvictNone(records: map<Id, Record>, index: map<Tag, Id>, id: Id)
    ensures AfterEvict(records, index, id, {}) == records
  {
    forall n | n in records ensures AfterEvict(records, index, id, {})[n] == records[n] {
      assert Held(index, n, {}) == {};
    }
  }

  /** The disk after the holder of one tag, if any, has lost it. */
  function EvictOne(d: Disk, index: map<Tag, Id>, id: Id, t: Tag): Disk {
    var e := Eviction(d, index, id, t);
    if e.None? then d else Apply(d, WriteRecord(e.value))
  }

  lemma EvictOneIs(d: Disk, index: map<Tag, Id>, id: Id, t: Tag)
    requires WellNamed(d.records)
    ensures var z := EvictOne(d, index, id, t);
            && z == d.(records := z.records) && z.records.Keys == d.records.Keys && WellNamed(z.records)
            && forall n :: n in d.records ==>
                 z.records[n] == if n != id && t in index && index[t] == n
                                 then d.records[n].(tags := Minus(d.records[n].tags, {t})) else d.records[n]
  {
  }

  /** Losing one tag and then the rest is losing them all. */
  lemma LoseTags(tags: seq<Tag>, index: map<Tag, Id>, n: Id, t: Tag, rest: set<Tag>)
    ensures var first := if t in index && index[t] == n then Minus(tags, {t}) else tags;
            Minus(first, Held(index, n, rest)) == Minus(tags, Held(index, n, {t} + rest))
  {
    if t in index && index[t] == n {
      assert Held(index, n, {t} + rest) == {t} + Held(index, n, rest);
      MinusMinus(tags, {t}, Held(index, n, rest));
    } else {
      assert Held(index, n, {t} + rest) == Held(index, n, rest);
    }
  }

  /** Evicting one tag and then the rest evicts them all. */
  lemma EvictStep(d: Disk, index: map<Tag, Id>, id: Id, t: Tag, rest: set<Tag>)
    requires WellNamed(d.records)
    ensures AfterEvict(EvictOne(d, index, id, t).records, index, id, rest)
            == AfterEvict(d.records, index, id, {t} + rest)
  {
    EvictOneIs(d, index, id, t);
    forall n | n in d.records { LoseTags(d.records[n].tags, index, n, t, rest); }
  }

  lemma {:induction false} EvictRun(d: Disk, index: map<Tag, Id>, id: Id, tags: seq<Tag>)
    requires WellNamed(d.records)
    ensures Run(d, EvictPlan(d, index, id, tags))
            == d.(records := AfterEvict(d.records, index, id, Elements(tags)))
    decreases |tags|
  {
    if tags == [] {
      assert Elements(tags) == {};
      AfterEvictNone(d.records, index, id);
    } else {
      EvictOneIs(d, index, id, tags[0]);
      EvictStep(d, index, id, tags[0], Elements(tags[1..]));
      EvictRun(EvictOne(d, index, id, tags[0]), index, id, tags[1..]);
      assert Elements(tags) == {tags[0]} + Elements(tags[1..]);
    }
  }

  /** A put whose evictions leave `records`. */
  lemma {:induction false} PutRunVia(d: Disk, r: Record, evict: seq<Write>, records: map<Id, Record>,
                                     index: map<Tag, Id>)
    requires Run(Apply(d, WriteRecord(r)), evict) == d.(records := records)
    ensures Run(d, [WriteRecord(r)] + evict + [WriteIndex(index)]) == d.(records := records, index := index)
  {
    RunAround(d, WriteRecord(r), evict, WriteIndex(index));
  }

  lemma WellNamedWrite(d: Disk, r: Record)
    requires WellNamed(d.records)
    ensures WellNamed(Apply(d, WriteRecord(r)).records)
  {
  }

  lemma {:induction false} PutRun(d: Disk, r: Record)
    requires WellNamed(d.records)
    ensures Run(d, PutPlan(d, d.index, r)) == PutResult(d, r)
  {
    var d1 := Apply(d, WriteRecord(r));
    var evict := EvictPlan(d1, d.index, r.id, r.tags);
    WellNamedWrite(d, r);
    EvictRun(d1, d.index, r.id, r.tags);
    PutRunVia(d, r, evict, PutResult(d, r).records, PutResult(d, r).index);
  }

  lemma {:induction false} LayerRun(d: Disk, used: set<Digest>, diffIds: seq<Digest>)
    ensures Run(d, LayerPlan(used, diffIds)) == d.(layers := d.layers - (Elements(diffIds) - used))
    decreases |diffIds|
  {
    if diffIds == [] {
      assert d.layers - (Elements(diffIds) - used) == d.layers;
    } else {
      var first := if diffIds[0] in used then [] else [RemoveLayer(diffIds[0])];
      RunAppend(d, first, LayerPlan(used, diffIds[1..]));
      LayerRun(Run(d, first), used, diffIds[1..]);
      assert d.layers - (Elements(diffIds) - used)
          == Run(d, first).layers - (Elements(diffIds[1..]) - used);
    }
  }

  lemma {:induction false} BlobRun(d: Disk, used: set<Digest>, blobs: seq<Digest>)
    ensures Run(d, BlobPlan(used, blobs)) == d.(blobs := d.blobs - (Elements(blobs) - used))
    decreases |blobs|
  {
    if blobs == [] {
      assert d.blobs - (Elements(blobs) - used) == d.blobs;
    } else {
      var first := if blobs[0] in used then [] else [RemoveBlob(blobs[0])];
      RunAppend(d, first, BlobPlan(used, blobs[1..]));
      BlobRun(Run(d, first), used, blobs[1..]);
      assert d.blobs - (Elements(blobs) - used)
          == Run(d, first).blobs - (Elements(blobs[1..]) - used);
    }
  }

  lemma GcRun(d: Disk, was: Record)
    ensures Run(d, GcPlan(d, was)) == GcResult(d, was)
  {
    var layers := LayerPlan(UsedLayers(d.records), was.diffIds);
    RunAppend(d, layers, BlobPlan(UsedBlobs(d.records), was.layerBlobs));
    LayerRun(d, UsedLayers(d.records), was.diffIds);
    BlobRun(Run(d, layers), UsedBlobs(d.records), was.layerBlobs);
  }

  lemma {:induction false} LayerWrites(used: set<Digest>, diffIds: seq<Digest>, w: Write)
    requires w in LayerPlan(used, diffIds)
    ensures w.RemoveLayer?
  {
    if w != RemoveLayer(diffIds[0]) {
      LayerWrites(used, diffIds[1..], w);
    }
  }

  lemma {:induction false} BlobWrites(used: set<Digest>, blobs: seq<Digest>, w: Write)
    requires w in BlobPlan(used, blobs)
    ensures w.RemoveBlob? && w.blob in blobs && w.blob !in used
  {
    if w != RemoveBlob(blobs[0]) || blobs[0] in used {
      BlobWrites(used, blobs[1..], w);
    }
  }

  /** The collector's writes: layer directories, and blobs of the old revision that no record uses. */
  lemma GcWrites(d: Disk, was: Record, w: Write)
    requires w in GcPlan(d, was)
    ensures w.RemoveLayer? || (w.RemoveBlob? && w.blob in was.layerBlobs && w.blob !in UsedBlobs(d.records))
  {
    if w in LayerPlan(UsedLayers(d.records), was.diffIds) {
      LayerWrites(UsedLayers(d.records), was.diffIds, w);
    } else {
      BlobWrites(UsedBlobs(d.records), was.layerBlobs, w);
    }
  }

  // --- put ---------------------------------------------------------------

  /** What a put may assume: nothing lost, tags mutually inverse, and no tag of the stored record dropped. */
  ghost predicate Puttable(d: Disk, r: Record) {
    && Sound(d) && TagsAgree(d) && Embedded(d) && RecordSound(d, r.id, r)
    && (r.id in d.records ==> forall t :: t in d.records[r.id].tags ==> t in r.tags)
  }

  /** Tag `t` is embedded in record `n` iff the index maps `t` to `n`. */
  ghost predicate Inverse(d: Disk, n: Id, t: Tag) {
    (n in d.records && t in d.records[n].tags) <==> (t in d.index && d.index[t] == n)
  }

  /** What a put leaves of the tags of another record. */
  lemma PutOther(d: Disk, r: Record, n: Id, t: Tag)
    requires n in d.records && n != r.id
    ensures n in PutResult(d, r).records && PutResult(d, r).records[n].id == d.records[n].id
    ensures t in PutResult(d, r).records[n].tags <==>
            t in d.records[n].tags && !(t in r.tags && t in d.index && d.index[t] == n)
  {
    assert PutResult(d, r).records[n].tags == Minus(d.records[n].tags, Held(d.index, n, Elements(r.tags)));
  }

  lemma PutTagAt(d: Disk, r: Record, n: Id, t: Tag)
    requires Inverse(d, n, t)
    requires r.id in d.records && t in d.records[r.id].tags ==> t in r.tags
    ensures Inverse(PutResult(d, r), n, t)
  {
    if n == r.id {
      assert PutResult(d, r).records[n] == r;
    } else if n in d.records {
      PutOther(d, r, n, t);
    }
  }

  /** After a put, `t` is embedded in `n` exactly when the index says so. */
  lemma PutTag(d: Disk, r: Record, n: Id, t: Tag)
    requires Puttable(d, r)
    ensures Inverse(PutResult(d, r), n, t)
  {
    if n in d.records { assert RecordSound(d, n, d.records[n]); }
    assert Inverse(d, n, t);
    PutTagAt(d, r, n, t);
  }

  lemma InverseAgrees(d: Disk)
    requires WellNamed(d.records) && forall n, t :: Inverse(d, n, t)
    ensures TagsAgree(d) && Embedded(d)
  {
    forall n, t | n in d.records && t in d.records[n].tags ensures t in d.index && d.index[t] == n {
      assert Inverse(d, n, t);
    }
    forall t | t in d.index ensures d.index[t] in d.records && t in d.records[d.index[t]].tags {
      assert Inverse(d, d.index[t], t);
    }
  }

  /** One embedded tag after a put, whether or not all indexed tags are embedded. */
  lemma PutAgreesAt(d: Disk, r: Record, n: Id, t: Tag)
    requires WellNamed(d.records) && TagsAgree(d)
    requires n in PutResult(d, r).records && t in PutResult(d, r).records[n].tags
    ensures var p := PutResult(d, r); t in p.index && p.index[t] == p.records[n].id
  {
    if n == r.id {
      assert PutResult(d, r).records[n] == r;
    } else {
      PutOther(d, r, n, t);
    }
  }

  lemma {:induction false} PutAgrees(d: Disk, r: Record)
    requires WellNamed(d.records) && TagsAgree(d)
    ensures TagsAgree(PutResult(d, r))
  {
    var p := PutResult(d, r);
    forall n, t | n in p.records && t in p.records[n].tags ensures t in p.index && p.index[t] == p.records[n].id {
      PutAgreesAt(d, r, n, t);
    }
  }

  lemma PutKeepsTags(d: Disk, r: Record)
    requires Puttable(d, r)
    ensures TagsAgree(PutResult(d, r)) && Embedded(PutResult(d, r))
  {
    var p := PutResult(d, r);
    forall n, t ensures Inverse(p, n, t) { PutTag(d, r, n, t); }
    PutKeepsSound(d, r);
    forall n | n in p.records ensures p.records[n].id == n { assert RecordSound(p, n, p.records[n]); }
    InverseAgrees(p);
  }

  lemma PutKeepsSound(d: Disk, r: Record)
    requires Sound(d) && RecordSound(d, r.id, r)
    ensures Sound(PutResult(d, r))
  {
    var p := PutResult(d, r);
    forall n | n in p.records ensures RecordSound(p, n, p.records[n]) {
      assert RecordSound(d, n, if n == r.id then r else d.records[n]);
    }
  }

  /** A put changes no record's content, and adds or replaces the one it writes. */
  lemma PutContent(d: Disk, r: Record)
    ensures var p := PutResult(d, r);
            && p.records.Keys == d.records.Keys + {r.id} && p.records[r.id] == r
            && forall n :: n in d.records && n != r.id ==>
                 && p.records[n].id == d.records[n].id
                 && p.records[n].diffIds == d.records[n].diffIds
                 && p.records[n].layerBlobs == d.records[n].layerBlobs
  {
  }

  // --- install -----------------------------------------------------------

  /**
   * The content writes that may come before a record: its own blobs and layers, and the
   * strays of an unpack, of which the sidecar stays and staging directories may go again.
   */
  ghost predicate ContentFor(content: seq<Write>, r: Record) {
    forall w :: w in content ==>
      || (w.AddBlob? && w.blob in RecordBlobRefs(r))
      || (w.AddLayer? && w.layer in r.diffIds)
      || w.AddStray?
      || (w.RemoveStray? && w.stray.Staging?)
  }

  lemma {:induction false} ContentRun(d: Disk, content: seq<Write>, r: Record)
    requires ContentFor(content, r)
    ensures var e := Run(d, content);
            && e == d.(blobs := e.blobs, layers := e.layers, strays := e.strays)
            && (Sidecar in e.strays <==> Sidecar in d.strays || AddStray(Sidecar) in content)
            && (forall b :: b in e.blobs <==> b in d.blobs || AddBlob(b) in content)
            && (forall l :: l in e.layers <==> l in d.layers || AddLayer(l) in content)
    decreases |content|
  {
    if content != [] {
      ContentRun(Apply(d, content[0]), content[1..], r);
      assert forall w :: w in content <==> w == content[0] || w in content[1..];
    }
  }

  /** What the callers of a put guarantee about the record and its content. */
  ghost predicate Installable(d: Disk, r: Record, content: seq<Write>) {
    && ContentFor(content, r)
    && KindsApart(d.records[r.id := r])
    && RecordSound(Run(d, content), r.id, r)
  }

  function ReplaceResult(d: Disk, r: Record): Disk {
    var p := PutResult(d, Merged(d, r));
    if r.id in d.records
       && (d.records[r.id].diffIds != r.diffIds || d.records[r.id].layerBlobs != r.layerBlobs)
    then GcResult(p, d.records[r.id]) else p
  }

  lemma InstallRun(d: Disk, r: Record, content: seq<Write>)
    requires WellNamed(d.records) && ContentFor(content, r)
    ensures Run(d, Plan(d, Install(r, content))) == ReplaceResult(Run(d, content), r)
  {
    var e := Run(d, content);
    ContentRun(d, content, r);
    RunAppend(d, content, ReplacePlan(e, r));
    var put := PutPlan(e, e.index, Merged(e, r));
    PutRun(e, Merged(e, r));
    if r.id in e.records {
      RunAppend(e, put, GcPlan(Run(e, put), e.records[r.id]));
      GcRun(Run(e, put), e.records[r.id]);
    }
  }

  /** Collecting a dropped revision takes only content no record uses. */
  lemma GcKeepsSound(d: Disk, was: Record)
    requires Sound(d)
    requires forall n :: n in d.records ==> n !in was.layerBlobs
    ensures Sound(GcResult(d, was))
  {
    var g := GcResult(d, was);
    forall n | n in d.records ensures RecordSound(g, n, d.records[n]) {
      assert RecordSound(d, n, d.records[n]);
      forall l | l in d.records[n].diffIds ensures l in g.layers { assert l in UsedLayers(d.records); }
    }
  }

  /** Collecting a dropped revision takes all of its content that nothing else roots. */
  lemma GcKeepsNoGarbage(d: Disk, was: Record)
    requires d.partials == {}
    requires forall b :: b in d.blobs ==> BlobRooted(d, b) || b in was.layerBlobs
    requires forall l :: l in d.layers ==> LayerRooted(d, l) || l in was.diffIds
    ensures NoGarbage(GcResult(d, was))
  {
    var g := GcResult(d, was);
    assert forall b :: BlobRooted(g, b) == BlobRooted(d, b);
    forall b | b in g.blobs ensures BlobRooted(d, b) {
      if b in UsedBlobs(d.records) {
        var n :| n in d.records && b in d.records[n].layerBlobs;
        assert b in RecordBlobRefs(d.records[n]);
      }
    }
    assert forall l :: LayerRooted(g, l) == LayerRooted(d, l);
  }

  /** After a put, garbage can only come from the revision it replaced. */
  lemma PutGarbage(d: Disk, e: Disk, r: Record, m: Record)
    requires NoGarbage(d) && e == d.(blobs := e.blobs, layers := e.layers, strays := e.strays)
    requires forall b :: b in e.blobs ==> b in d.blobs || b in RecordBlobRefs(r)
    requires forall l :: l in e.layers ==> l in d.layers || l in r.diffIds
    requires m.id == r.id && m.diffIds == r.diffIds && m.layerBlobs == r.layerBlobs
    requires r.id in d.records ==> d.records[r.id].id == r.id
    ensures var p := PutResult(e, m);
            && (forall b :: b in p.blobs ==> BlobRooted(p, b)
                                             || (r.id in d.records && b in d.records[r.id].layerBlobs))
            && (forall l :: l in p.layers ==> LayerRooted(p, l)
                                              || (r.id in d.records && l in d.records[r.id].diffIds))
  {
    var p := PutResult(e, m);
    PutContent(e, m);
    forall b | b in p.blobs && !(r.id in d.records && b in d.records[r.id].layerBlobs)
      ensures BlobRooted(p, b)
    {
      if b in RecordBlobRefs(r) {
        assert b in RecordBlobRefs(p.records[r.id]);
      } else if b !in d.cacheBlobs {
        var n :| n in d.records && b in RecordBlobRefs(d.records[n]);
        assert b in RecordBlobRefs(p.records[n]);
      }
    }
    forall l | l in p.layers && !(r.id in d.records && l in d.records[r.id].diffIds)
      ensures LayerRooted(p, l)
    {
      if l in r.diffIds {
        assert l in p.records[r.id].diffIds;
      } else if l !in d.cacheLayers {
        var n :| n in d.records && l in d.records[n].diffIds;
        assert l in p.records[n].diffIds;
      }
    }
  }

  /** Content arriving ahead of its record costs nothing, and the record may then be put. */
  lemma ContentKeepsSound(d: Disk, r: Record, content: seq<Write>)
    requires Sound(d) && Installable(d, r, content)
    ensures var e := Run(d, content);
            && e.records == d.records && e.index == d.index
            && Sound(e) && RecordSound(e, r.id, Merged(e, r))
  {
    var e := Run(d, content);
    ContentRun(d, content, r);
    forall n | n in e.records ensures RecordSound(e, n, e.records[n]) {
      assert RecordSound(d, n, d.records[n]);
    }
  }

  lemma PutKeepsKindsApart(d: Disk, r: Record)
    requires KindsApart(d.records[r.id := r])
    ensures KindsApart(PutResult(d, r).records)
  {
    var p, k := PutResult(d, r), d.records[r.id := r];
    forall a, b | a in p.records && b in p.records ensures p.records[a].id !in p.records[b].layerBlobs {
      assert k[a].id !in k[b].layerBlobs;
    }
  }

  /** The replaced revision is wholly rooted when the new one has the same layers. */
  lemma SameLayersRooted(p: Disk, id: Id)
    requires id in p.records
    ensures forall b :: b in p.records[id].layerBlobs ==> BlobRooted(p, b)
    ensures forall l :: l in p.records[id].diffIds ==> LayerRooted(p, l)
  {
    assert forall b :: b in p.records[id].layerBlobs ==> b in RecordBlobRefs(p.records[id]);
  }

  lemma InstallNoGarbage(d: Disk, r: Record, content: seq<Write>)
    requires NoGarbage(d) && WellNamed(d.records) && Installable(d, r, content)
    ensures NoGarbage(ReplaceResult(Run(d, content), r))
  {
    var e := Run(d, content);
    ContentRun(d, content, r);
    var m := Merged(e, r);
    var p := PutResult(e, m);
    PutGarbage(d, e, r, m);
    if r.id in d.records {
      var was := d.records[r.id];
      if was.diffIds != r.diffIds || was.layerBlobs != r.layerBlobs {
        GcKeepsNoGarbage(p, was);
      } else {
        SameLayersRooted(p, r.id);
      }
    }
  }

  /** The put of an install, before the replaced revision's layers are collected. */
  lemma InstallPut(d: Disk, r: Record, content: seq<Write>)
    requires Sound(d) && TagsAgree(d) && Installable(d, r, content)
    ensures var e := Run(d, content);
            var p := PutResult(e, Merged(e, r));
            Sound(p) && TagsAgree(p) && KindsApart(p.records)
  {
    var e := Run(d, content);
    var m := Merged(e, r);
    ContentKeepsSound(d, r, content);
    PutKeepsSound(e, m);
    SoundWellNamed(e);
    PutAgrees(e, m);
    KindsByContent(d.records, r, m);
    PutKeepsKindsApart(e, m);
  }

  lemma SoundWellNamed(d: Disk)
    requires Sound(d)
    ensures WellNamed(d.records)
  {
    forall n | n in d.records ensures d.records[n].id == n { assert RecordSound(d, n, d.records[n]); }
  }

  lemma InstallSound(d: Disk, r: Record, content: seq<Write>)
    requires Sound(d) && TagsAgree(d) && KindsApart(d.records) && Installable(d, r, content)
    ensures var z := ReplaceResult(Run(d, content), r); Sound(z) && TagsAgree(z) && KindsApart(z.records)
  {
    InstallPut(d, r, content);
    ContentRun(d, content, r);
    if r.id in d.records {
      SoundWellNamed(d);
      InstallApart(d, r, content);
      GcKeepsTied(PutResult(Run(d, content), Merged(Run(d, content), r)), d.records[r.id]);
    }
  }

  /** Collecting content touches no record and no tag. */
  lemma GcKeepsTied(p: Disk, was: Record)
    requires Sound(p) && TagsAgree(p) && KindsApart(p.records)
    requires forall n :: n in p.records ==> n !in was.layerBlobs
    ensures var z := GcResult(p, was); Sound(z) && TagsAgree(z) && KindsApart(z.records)
  {
    GcKeepsSound(p, was);
  }

  /** After an install every indexed tag is embedded, if that was so before. */
  lemma InstallEmbeds(d: Disk, r: Record, content: seq<Write>)
    requires Sound(d) && TagsAgree(d) && Embedded(d) && Installable(d, r, content)
    ensures Embedded(ReplaceResult(Run(d, content), r))
  {
    var e := Run(d, content);
    ContentKeepsSound(d, r, content);
    PutKeepsTags(e, Merged(e, r));
  }

  lemma InstallApart(d: Disk, r: Record, content: seq<Write>)
    requires KindsApart(d.records) && WellNamed(d.records) && r.id in d.records && ContentFor(content, r)
    ensures var e := Run(d, content);
            forall n :: n in PutResult(e, Merged(e, r)).records ==> n !in d.records[r.id].layerBlobs
  {
    ContentRun(d, content, r);
    ReplacedApart(Run(d, content), Merged(Run(d, content), r));
  }

  /** The blobs of a replaced revision are not configs of any record. */
  lemma ReplacedApart(e: Disk, m: Record)
    requires KindsApart(e.records) && WellNamed(e.records) && m.id in e.records
    ensures forall n :: n in PutResult(e, m).records ==> n !in e.records[m.id].layerBlobs
  {
    forall n | n in PutResult(e, m).records ensures n !in e.records[m.id].layerBlobs {
      assert e.records[n].id !in e.records[m.id].layerBlobs;
    }
  }

  /** Merging tags and digests into a record does not mix digest kinds. */
  lemma KindsByContent(records: map<Id, Record>, r: Record, m: Record)
    requires KindsApart(records[r.id := r]) && m.id == r.id && m.layerBlobs == r.layerBlobs
    ensures KindsApart(records[m.id := m])
  {
    var k, j := records[r.id := r], records[m.id := m];
    forall a, b | a in j && b in j ensures j[a].id !in j[b].layerBlobs {
      assert k[a].id !in k[b].layerBlobs;
    }
  }

  /** An install keeps the disk tidy, whether or not all indexed tags are embedded. */
  lemma InstallKeepsTidy(d: Disk, r: Record, content: seq<Write>)
    requires Tidy(d) && KindsApart(d.records) && Installable(d, r, content)
    ensures var z := Run(d, Plan(d, Install(r, content))); Tidy(z) && KindsApart(z.records)
  {
    SoundWellNamed(d);
    InstallRun(d, r, content);
    InstallSound(d, r, content);
    InstallNoGarbage(d, r, content);
  }

  lemma InstallKeepsCoherent(d: Disk, r: Record, content: seq<Write>)
    requires Coherent(d) && Installable(d, r, content)
    ensures Coherent(Run(d, Plan(d, Install(r, content))))
  {
    SoundWellNamed(d);
    InstallKeepsTidy(d, r, content);
    InstallRun(d, r, content);
    InstallEmbeds(d, r, content);
  }

  // --- changes of tags alone -----------------------------------------------

  /** The disks differ in tags at most. */
  ghost predicate SameContent(d: Disk, z: Disk) {
    && z == d.(records := z.records, index := z.index) && z.records.Keys == d.records.Keys
    && forall n :: n in d.records ==>
         && z.records[n].id == d.records[n].id
         && z.records[n].diffIds == d.records[n].diffIds
         && z.records[n].layerBlobs == d.records[n].layerBlobs
  }

  lemma SameContentKeeps(d: Disk, z: Disk)
    requires SameContent(d, z) && NoGarbage(d) && KindsApart(d.records)
    ensures NoGarbage(z) && KindsApart(z.records)
  {
    assert forall n :: n in d.records ==> RecordBlobRefs(z.records[n]) == RecordBlobRefs(d.records[n]);
    assert forall b :: BlobRooted(z, b) == BlobRooted(d, b);
    assert forall l :: LayerRooted(z, l) == LayerRooted(d, l);
    forall m, n | m in z.records && n in z.records ensures z.records[m].id !in z.records[n].layerBlobs {
      assert d.records[m].id !in d.records[n].layerBlobs;
    }
  }
}
