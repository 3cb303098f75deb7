/**
 * The durable writes each image-store operation makes, in order. A crash leaves
 * the disk as some prefix of the plan left it.
 */
module ImagePlan {
  import opened Common
  import opened ImageDisk

  datatype Write =
    | AddBlob(blob: Digest)
    | AddLayer(layer: Digest)
    | WriteRecord(record: Record)
    | RemoveRecord(id: Id)
    | WriteIndex(tags: map<Tag, Id>)
    | RemoveLayer(layer: Digest)
    | RemoveBlob(blob: Digest)
    | AddStray(stray: Stray)
    | RemoveStray(stray: Stray)
    | RewriteFile(file: Id, contents: Record)
    | RemovePartial(name: string)

  function Apply(d: Disk, w: Write): Disk {
    match w
    case AddBlob(b) => d.(blobs := d.blobs + {b})
    case AddLayer(l) => d.(layers := d.layers + {l})
    case WriteRecord(r) => d.(records := d.records[r.id := r])
    case RemoveRecord(id) => d.(records := d.records - {id})
    case WriteIndex(tags) => d.(index := tags)
    case RemoveLayer(l) => d.(layers := d.layers - {l})
    case RemoveBlob(b) => d.(blobs := d.blobs - {b})
    case AddStray(s) => d.(strays := d.strays + {s})
    case RemoveStray(s) => d.(strays := d.strays - {s})
    case RewriteFile(n, r) => d.(records := d.records[n := r])
    case RemovePartial(p) => d.(partials := d.partials - {p})
  }

  function Run(d: Disk, plan: seq<Write>): Disk
    decreases |plan|
  {
    if plan == [] then d else Run(Apply(d, plan[0]), plan[1..])
  }

  lemma {:induction false} RunAppend(d: Disk, a: seq<Write>, b: seq<Write>)
    ensures Run(d, a + b) == Run(Run(d, a), b)
    decreases |a|
  {
    if a == [] {
      assert a + b == b;
    } else {
      assert (a + b)[1..] == a[1..] + b;
      RunAppend(Apply(d, a[0]), a[1..], b);
    }
  }

  lemma TwoStages(before: seq<Write>, d: Disk, a: seq<Write>, b: seq<Write>)
    ensures before + a + b == before + (a + b) && Run(Run(d, a), b) == Run(d, a + b)
  {
    RunAppend(d, a, b);
  }

  lemma RunOne(d: Disk, w: Write)
    ensures Run(d, [w]) == Apply(d, w)
  {
  }

  /** A plan with its first and last writes taken off. */
  lemma RunAround(d: Disk, w: Write, mid: seq<Write>, last: Write)
    ensures Run(d, [w] + mid + [last]) == Apply(Run(Apply(d, w), mid), last)
  {
    RunAppend(d, [w] + mid, [last]);
    RunAppend(d, [w], mid);
    RunOne(d, w);
    RunOne(Run(Apply(d, w), mid), last);
  }

  // --- put ---------------------------------------------------------------

  /** The index after `tags` have been bound to `id`. */
  function Bind(index: map<Tag, Id>, tags: seq<Tag>, id: Id): map<Tag, Id> {
    index + map t | t in tags :: id
  }

  lemma BindStep(index: map<Tag, Id>, tags: seq<Tag>, t: Tag, id: Id)
    ensures Bind(index, tags, id)[t := id] == Bind(index, tags + [t], id)
  {
    var a, b := Bind(index, tags, id)[t := id], Bind(index, tags + [t], id);
    assert forall u :: u in a <==> u in b;
  }

  /** The record another holder of `t` must be rewritten to, when `t` moves to `id`. */
  function Eviction(d: Disk, index: map<Tag, Id>, id: Id, t: Tag): Option<Record> {
    if t in index && index[t] != id && index[t] in d.records && t in d.records[index[t]].tags
    then Some(d.records[index[t]].(tags := Minus(d.records[index[t]].tags, {t})))
    else None
  }

  function EvictPlan(d: Disk, index: map<Tag, Id>, id: Id, tags: seq<Tag>): seq<Write>
    decreases |tags|
  {
    if tags == [] then []
    else
      var e := Eviction(d, index, id, tags[0]);
      if e.None? then EvictPlan(d, index, id, tags[1..])
      else [WriteRecord(e.value)] + EvictPlan(Apply(d, WriteRecord(e.value)), index, id, tags[1..])
  }

  /** `put_image` on a store whose in-memory index is `index`. */
  function PutPlan(d: Disk, index: map<Tag, Id>, r: Record): seq<Write> {
    [WriteRecord(r)]
    + EvictPlan(Apply(d, WriteRecord(r)), index, r.id, r.tags)
    + [WriteIndex(Bind(index, r.tags, r.id))]
  }

  /** The merge rule of `put_image_merged`. */
  function Merged(d: Disk, r: Record): Record {
    if r.id !in d.records then r
    else
      var e := d.records[r.id];
      r.(tags := Union(r.tags, e.tags),
         repoDigests := Union(r.repoDigests, e.repoDigests),
         manifestDigest := if r.manifestDigest == "" then e.manifestDigest else r.manifestDigest)
  }

  // --- garbage collection ------------------------------------------------

  function LayerPlan(used: set<Digest>, diffIds: seq<Digest>): seq<Write> {
    if diffIds == [] then []
    else (if diffIds[0] in used then [] else [RemoveLayer(diffIds[0])]) + LayerPlan(used, diffIds[1..])
  }

  function BlobPlan(used: set<Digest>, blobs: seq<Digest>): seq<Write> {
    if blobs == [] then []
    else (if blobs[0] in used then [] else [RemoveBlob(blobs[0])]) + BlobPlan(used, blobs[1..])
  }

  lemma {:induction false} LayerPlanSnoc(used: set<Digest>, diffIds: seq<Digest>, x: Digest)
    ensures LayerPlan(used, diffIds + [x]) == LayerPlan(used, diffIds) + if x in used then [] else [RemoveLayer(x)]
  {
    if diffIds == [] {
      assert [x][1..] == [];
    } else {
      LayerPlanSnoc(used, diffIds[1..], x);
      assert (diffIds + [x])[1..] == diffIds[1..] + [x];
    }
  }

  lemma {:induction false} BlobPlanSnoc(used: set<Digest>, blobs: seq<Digest>, x: Digest)
    ensures BlobPlan(used, blobs + [x]) == BlobPlan(used, blobs) + if x in used then [] else [RemoveBlob(x)]
  {
    if blobs == [] {
      assert [x][1..] == [];
    } else {
      BlobPlanSnoc(used, blobs[1..], x);
      assert (blobs + [x])[1..] == blobs[1..] + [x];
    }
  }

  function UsedLayers(records: map<Id, Record>): set<Digest> {
    set n, l | n in records && l in records[n].diffIds :: l
  }

  function UsedBlobs(records: map<Id, Record>): set<Digest> {
    set n, b | n in records && b in records[n].layerBlobs :: b
  }

  /** `gc_replaced_layers`: drop what `was` referenced and no record on disk does. */
  function GcPlan(d: Disk, was: Record): seq<Write> {
    LayerPlan(UsedLayers(d.records), was.diffIds) + BlobPlan(UsedBlobs(d.records), was.layerBlobs)
  }

  // --- remove ------------------------------------------------------------

  /** `delete_record`: index first, then the record, then content nobody else needs. */
  function DeletePlan(d: Disk, index: map<Tag, Id>, r: Record): seq<Write> {
    [WriteIndex(index), RemoveRecord(r.id)]
    + GcPlan(Apply(d, RemoveRecord(r.id)), r)
    + [RemoveBlob(r.id)]
  }

  /** Drop the index entries of `tags` that still name `id`. */
  function Unbind(index: map<Tag, Id>, tags: seq<Tag>, id: Id): map<Tag, Id> {
    map t | t in index && !(t in tags && index[t] == id) :: index[t]
  }

  function UntagPlan(d: Disk, index: map<Tag, Id>, r: Record, t: Tag): seq<Write> {
    var r' := r.(tags := Minus(r.tags, {t}));
    var index' := Unbind(index, [t], r.id);
    if r'.tags == [] then DeletePlan(d, index', r')
    else [WriteRecord(r'), WriteIndex(index')]
  }

  // --- commands ----------------------------------------------------------

  /**
   * Install is the load path: content lands first, the record is merged in, and
   * the layers of a replaced revision are collected.
   */
  datatype Command =
    | Install(record: Record, content: seq<Write>)
    | AddTag(id: Id, tag: Tag)
    | Untag(id: Id, tag: Tag)
    | Remove(id: Id)

  function ReplacePlan(d: Disk, r: Record): seq<Write> {
    var put := PutPlan(d, d.index, Merged(d, r));
    if r.id in d.records
       && (d.records[r.id].diffIds != r.diffIds || d.records[r.id].layerBlobs != r.layerBlobs)
    then put + GcPlan(Run(d, put), d.records[r.id])
    else put
  }

  /** The writes of one command on a freshly loaded store; a missing id writes nothing. */
  function Plan(d: Disk, c: Command): seq<Write> {
    match c
    case Install(r, content) => content + ReplacePlan(Run(d, content), r)
    case AddTag(id, t) =>
      if id !in d.records || t in d.records[id].tags then []
      else PutPlan(d, d.index, d.records[id].(tags := d.records[id].tags + [t]))
    case Untag(id, t) =>
      if id !in d.records then [] else UntagPlan(d, d.index, d.records[id], t)
    case Remove(id) =>
      if id !in d.records then []
      else
        var r := d.records[id];
        DeletePlan(d, Unbind(d.index, r.tags, r.id), r)
  }

  /** Pull and build merge the record in but never collect the revision they replace. */
  function PullPlan(d: Disk, r: Record, content: seq<Write>): seq<Write> {
    var e := Run(d, content);
    content + PutPlan(e, e.index, Merged(e, r))
  }

  function Execute(d: Disk, cs: seq<Command>): Disk
    decreases |cs|
  {
    if cs == [] then d else Execute(Run(d, Plan(d, cs[0])), cs[1..])
  }
}
