/** The data root of the image store, and what fsck calls an inconsistency in it. */
module ImageDisk {

  type Id = string
  type Tag = string
  type Digest = string

  /** images/<id>.json. Digests are held in their short form, without "sha256:". */
  datatype Record = Record(
    id: Id,
    tags: seq<Tag>,
    repoDigests: seq<string>,
    manifestDigest: string,
    diffIds: seq<Digest>,
    layerBlobs: seq<Digest>)

  /**
   * An entry of layers/ that is no layer: the unpack sidecar `.by-blob`, or a staging
   * directory. Their names start with a dot, which no digest does.
   */
  datatype Stray = Sidecar | Staging(name: string)

  /**
   * What is on disk: tags.json, the record files by file stem, the blob files
   * (unfinished downloads apart), the layer directories, the strays beside them,
   * and the names the builder cache roots.
   */
  datatype Disk = Disk(
    index: map<Tag, Id>,
    records: map<Id, Record>,
    blobs: set<Digest>,
    partials: set<string>,
    layers: set<Digest>,
    strays: set<Stray>,
    cacheBlobs: set<Digest>,
    cacheLayers: set<Digest>,
    cacheStrays: set<Stray>)

  /** The blobs one record roots: its config, stored under the record id, and its layers. */
  function RecordBlobRefs(r: Record): (refs: seq<Digest>)
    ensures forall b :: b in refs <==> (r.id != "" && b == r.id) || b in r.layerBlobs
  {
    (if r.id != "" then [r.id] else []) + r.layerBlobs
  }

  ghost predicate BlobRooted(d: Disk, b: Digest) {
    b in d.cacheBlobs || exists n :: n in d.records && b in RecordBlobRefs(d.records[n])
  }

  ghost predicate LayerRooted(d: Disk, l: Digest) {
    l in d.cacheLayers || exists n :: n in d.records && l in d.records[n].diffIds
  }

  /** One line of an fsck report. */
  datatype Finding =
    | EmptyId(file: Id)
    | NameMismatch(file: Id)
    | LengthMismatch(file: Id)
    | StaleEmbed(file: Id, tag: Tag)
    | NotInIndex(file: Id, tag: Tag)
    | MissingConfig(file: Id)
    | MissingBlob(file: Id, digest: Digest)
    | MissingLayer(file: Id, digest: Digest)
    | DanglingTag(tag: Tag)
    | StalePartial(name: string)
    | UnreferencedBlob(digest: Digest)
    | UnreferencedLayer(digest: Digest)
    | StrayDirectory(stray: Stray)

  /** The findings about one record file. */
  ghost predicate ReportsRecord(d: Disk, n: Id, r: Record, f: Finding) {
    match f
    case EmptyId(file) => file == n && r.id == ""
    case NameMismatch(file) => file == n && r.id != "" && n != r.id
    case LengthMismatch(file) => file == n && |r.diffIds| != |r.layerBlobs|
    case StaleEmbed(file, t) => file == n && t in r.tags && t in d.index && d.index[t] != r.id
    case NotInIndex(file, t) => file == n && t in r.tags && t !in d.index
    case MissingConfig(file) => file == n && r.id != "" && r.id !in d.blobs
    case MissingBlob(file, b) => file == n && b !in d.blobs
      && exists i :: 0 <= i < |r.layerBlobs| && r.layerBlobs[i] == b
                     && !(i < |r.diffIds| && r.diffIds[i] in d.layers)
    case MissingLayer(file, l) => file == n && l in r.diffIds && l !in d.layers
    case _ => false
  }

  /** What `check` has to report about a disk. */
  ghost predicate Reports(d: Disk, f: Finding) {
    match f
    case DanglingTag(t) => t in d.index && d.index[t] !in d.records
    case StalePartial(p) => p in d.partials
    case UnreferencedBlob(b) => b in d.blobs && !BlobRooted(d, b)
    case UnreferencedLayer(l) => l in d.layers && !LayerRooted(d, l)
    case StrayDirectory(s) => s in d.strays && s !in d.cacheStrays
    case _ => f.file in d.records && ReportsRecord(d, f.file, d.records[f.file], f)
  }

  ghost predicate Clean(d: Disk) {
    forall f :: !Reports(d, f)
  }

  /** Findings that mean a record or a tag lost something it needs. */
  predicate Severe(f: Finding) {
    f.EmptyId? || f.NameMismatch? || f.LengthMismatch? || f.MissingConfig?
    || f.MissingBlob? || f.MissingLayer? || f.DanglingTag?
  }

  ghost predicate RecordSound(d: Disk, n: Id, r: Record) {
    && r.id == n && n != ""
    && |r.diffIds| == |r.layerBlobs|
    && n in d.blobs
    && forall l :: l in r.diffIds ==> l in d.layers
  }

  /** Nothing lost: every record has its content, every indexed tag its record. */
  ghost predicate Sound(d: Disk) {
    && (forall n :: n in d.records ==> RecordSound(d, n, d.records[n]))
    && (forall t :: t in d.index ==> d.index[t] in d.records)
  }

  /** No tag is embedded against the index. */
  ghost predicate TagsAgree(d: Disk) {
    forall n, t :: n in d.records && t in d.records[n].tags ==>
      t in d.index && d.index[t] == d.records[n].id
  }

  /** Everything on disk is rooted by a record or by the builder cache. */
  ghost predicate NoGarbage(d: Disk) {
    && d.partials == {}
    && (forall b :: b in d.blobs ==> BlobRooted(d, b))
    && (forall l :: l in d.layers ==> LayerRooted(d, l))
  }

  lemma SoundIffNothingSevere(d: Disk)
    ensures Sound(d) <==> forall f :: Severe(f) ==> !Reports(d, f)
  {
    if forall f :: Severe(f) ==> !Reports(d, f) {
      forall n | n in d.records ensures RecordSound(d, n, d.records[n]) {
        var r := d.records[n];
        assert !Reports(d, EmptyId(n)) && !Reports(d, NameMismatch(n)) && !Reports(d, LengthMismatch(n));
        assert !Reports(d, MissingConfig(n));
        forall l | l in r.diffIds ensures l in d.layers { assert !Reports(d, MissingLayer(n, l)); }
      }
      forall t | t in d.index ensures d.index[t] in d.records { assert !Reports(d, DanglingTag(t)); }
    }
  }

  /** Nothing lost, no tag astray and nothing left over. */
  ghost predicate Tidy(d: Disk) {
    Sound(d) && TagsAgree(d) && NoGarbage(d)
  }

  /** Every stray is one the builder cache happens to name. */
  ghost predicate StraysNamed(d: Disk) {
    d.strays <= d.cacheStrays
  }

  /** A tidy disk is one whose report holds nothing but stray directories. */
  lemma TidyIff(d: Disk)
    ensures Tidy(d) <==> forall f :: Reports(d, f) ==> f.StrayDirectory?
  {
    SoundIffNothingSevere(d);
    if forall f :: Reports(d, f) ==> f.StrayDirectory? {
      forall n, t | n in d.records && t in d.records[n].tags
        ensures t in d.index && d.index[t] == d.records[n].id
      {
        assert !Reports(d, StaleEmbed(n, t)) && !Reports(d, NotInIndex(n, t));
      }
      forall p ensures p !in d.partials { assert !Reports(d, StalePartial(p)); }
      forall b | b in d.blobs ensures BlobRooted(d, b) { assert !Reports(d, UnreferencedBlob(b)); }
      forall l | l in d.layers ensures LayerRooted(d, l) { assert !Reports(d, UnreferencedLayer(l)); }
    }
  }

  /** A clean report: a tidy disk without strays of its own, and conversely. */
  lemma CleanIff(d: Disk)
    ensures Clean(d) <==> Tidy(d) && StraysNamed(d)
  {
    TidyIff(d);
    if Clean(d) {
      forall s | s in d.strays ensures s in d.cacheStrays { assert !Reports(d, StrayDirectory(s)); }
    }
  }

  // --- lost layers -----------------------------------------------------------

  /** Layer `i` of a record can be had: its blob is there, or its directory. */
  predicate LayerHeld(d: Disk, r: Record, i: nat)
    requires i < |r.layerBlobs|
  {
    r.layerBlobs[i] in d.blobs || (i < |r.diffIds| && r.diffIds[i] in d.layers)
  }

  /** A record has a blob reported missing exactly when one of its layers cannot be had, and it is that layer's blob. */
  lemma MissingBlobIff(d: Disk, n: Id)
    requires n in d.records
    ensures forall b :: Reports(d, MissingBlob(n, b)) <==>
              exists i: nat :: i < |d.records[n].layerBlobs| && d.records[n].layerBlobs[i] == b
                               && !LayerHeld(d, d.records[n], i)
    ensures (forall b :: !Reports(d, MissingBlob(n, b))) <==>
            forall i: nat :: i < |d.records[n].layerBlobs| ==> LayerHeld(d, d.records[n], i)
  {
    var r := d.records[n];
    forall i: nat | i < |r.layerBlobs| && !LayerHeld(d, r, i) ensures Reports(d, MissingBlob(n, r.layerBlobs[i])) {
      assert r.layerBlobs[i] == r.layerBlobs[i];
    }
  }

  /** With no directory unpacked, the blobs reported are those that are not there; with all of them, none is. */
  lemma MissingBlobExtremes(d: Disk, n: Id)
    requires n in d.records && |d.records[n].diffIds| == |d.records[n].layerBlobs|
    ensures (forall l :: l in d.records[n].diffIds ==> l !in d.layers) ==>
              forall b :: Reports(d, MissingBlob(n, b)) <==> b in d.records[n].layerBlobs && b !in d.blobs
    ensures (forall l :: l in d.records[n].diffIds ==> l in d.layers) ==> forall b :: !Reports(d, MissingBlob(n, b))
  {
    var r := d.records[n];
    MissingBlobIff(d, n);
    assert forall i :: 0 <= i < |r.diffIds| ==> r.diffIds[i] in r.diffIds;
    forall b | b in r.layerBlobs ensures exists i: nat :: i < |r.layerBlobs| && r.layerBlobs[i] == b {
      var i :| 0 <= i < |r.layerBlobs| && r.layerBlobs[i] == b;
    }
  }
}
