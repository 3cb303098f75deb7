/** The offline consistency check and its repair (`ingotd --fsck [--repair]`). */
module Fsck {
  import opened Common
  import opened ImageDisk
  import opened ImagePlan
  import opened ImageRuns
  import opened ImageCrashes

  // --- check -------------------------------------------------------------

  /** How often the report names a tag as a stale embed of a record: as often as the record does. */
  function StaleCount(d: Disk, r: Record, t: Tag): nat {
    if t in d.index && d.index[t] != r.id then multiset(r.tags)[t] else 0
  }

  /** The findings about one record file. */
  method CheckRecord(d: Disk, n: Id, r: Record) returns (errors: seq<Finding>)
    ensures forall f :: f in errors <==> ReportsRecord(d, n, r, f)
    ensures forall t :: multiset(errors)[StaleEmbed(n, t)] == StaleCount(d, r, t)
  {
    var header := CheckHeader(d, n, r);
    var tags := CheckTags(d, n, r);
    var content := CheckContent(d, n, r);
    forall t ensures multiset(header + tags + content)[StaleEmbed(n, t)] == multiset(tags)[StaleEmbed(n, t)] {
      CountBetween(header, tags, content, StaleEmbed(n, t));
    }
    errors := header + tags + content;
  }

  lemma CountBetween(a: seq<Finding>, b: seq<Finding>, c: seq<Finding>, f: Finding)
    requires f !in a && f !in c
    ensures multiset(a + b + c)[f] == multiset(b)[f]
  {
  }

  /** Findings about the tags or the layers of a record, rather than about the record itself. */
  predicate Listed(f: Finding) {
    f.StaleEmbed? || f.NotInIndex? || f.MissingBlob? || f.MissingLayer?
  }

  /** A record's name, its two lists of layers, and its config. */
  method CheckHeader(d: Disk, n: Id, r: Record) returns (errors: seq<Finding>)
    ensures forall f :: f in errors <==> ReportsRecord(d, n, r, f) && !Listed(f)
  {
    errors := [];
    if r.id == "" {
      errors := errors + [EmptyId(n)];
    } else if n != r.id {
      errors := errors + [NameMismatch(n)];
    }
    if |r.diffIds| != |r.layerBlobs| {
      errors := errors + [LengthMismatch(n)];
    }
    if r.id != "" && r.id !in d.blobs {
      errors := errors + [MissingConfig(n)];
    }
  }

  /** What the report says of one embedded tag. */
  function TagFindings(d: Disk, n: Id, r: Record, t: Tag): seq<Finding> {
    if t !in d.index then [NotInIndex(n, t)]
    else if d.index[t] != r.id then [StaleEmbed(n, t)]
    else []
  }

  /** The findings of `tags`, each as often as its tag is there. */
  ghost predicate TagsChecked(d: Disk, n: Id, r: Record, tags: seq<Tag>, errors: seq<Finding>) {
    && (forall f :: f in errors <==>
          (f.StaleEmbed? || f.NotInIndex?) && f.file == n && f.tag in tags && f in TagFindings(d, n, r, f.tag))
    && (forall t :: multiset(errors)[StaleEmbed(n, t)] == StaleCount(d, r.(tags := tags), t))
  }

  lemma TagsStep(d: Disk, n: Id, r: Record, tags: seq<Tag>, errors: seq<Finding>, t: Tag)
    requires TagsChecked(d, n, r, tags, errors)
    ensures TagsChecked(d, n, r, tags + [t], errors + TagFindings(d, n, r, t))
  {
    var more := TagFindings(d, n, r, t);
    assert multiset(errors + more) == multiset(errors) + multiset(more);
    assert multiset(tags + [t]) == multiset(tags) + multiset{t};
  }

  /** Embedded tags the index gives elsewhere, or lacks. */
  method CheckTags(d: Disk, n: Id, r: Record) returns (errors: seq<Finding>)
    ensures forall f :: f in errors <==> ReportsRecord(d, n, r, f) && (f.StaleEmbed? || f.NotInIndex?)
    ensures forall t :: multiset(errors)[StaleEmbed(n, t)] == StaleCount(d, r, t)
  {
    errors := [];
    for i := 0 to |r.tags|
      invariant TagsChecked(d, n, r, r.tags[..i], errors)
    {
      var t := r.tags[i];
      TagsStep(d, n, r, r.tags[..i], errors, t);
      assert r.tags[..i + 1] == r.tags[..i] + [t];
      if t in d.index && d.index[t] != r.id {
        errors := errors + [StaleEmbed(n, t)];
      } else if t !in d.index {
        errors := errors + [NotInIndex(n, t)];
      }
    }
    assert r.tags[..|r.tags|] == r.tags;
  }

  ghost predicate LostBlob(d: Disk, r: Record, i: int)
    requires 0 <= i < |r.layerBlobs|
  {
    r.layerBlobs[i] !in d.blobs && !(i < |r.diffIds| && r.diffIds[i] in d.layers)
  }

  /** Layer content present in neither form, and layer directories missing. */
  method CheckContent(d: Disk, n: Id, r: Record) returns (errors: seq<Finding>)
    ensures forall f :: f in errors <==> ReportsRecord(d, n, r, f) && (f.MissingBlob? || f.MissingLayer?)
  {
    errors := [];
    for i := 0 to |r.layerBlobs|
      invariant forall f :: f in errors ==>
        f.MissingBlob? && f.file == n && exists j :: 0 <= j < i && r.layerBlobs[j] == f.digest && LostBlob(d, r, j)
      invariant forall j :: 0 <= j < i && LostBlob(d, r, j) ==> MissingBlob(n, r.layerBlobs[j]) in errors
    {
      if r.layerBlobs[i] !in d.blobs && !(i < |r.diffIds| && r.diffIds[i] in d.layers) {
        errors := errors + [MissingBlob(n, r.layerBlobs[i])];
        assert LostBlob(d, r, i);
      }
    }
    ghost var lost := errors;
    for i := 0 to |r.diffIds|
      invariant forall f :: f in errors <==>
        f in lost || (f.MissingLayer? && f.file == n && f.digest in r.diffIds[..i] && f.digest !in d.layers)
    {
      if r.diffIds[i] !in d.layers {
        errors := errors + [MissingLayer(n, r.diffIds[i])];
      }
      assert r.diffIds[..i + 1] == r.diffIds[..i] + [r.diffIds[i]];
    }
    assert r.diffIds[..|r.diffIds|] == r.diffIds;
  }

  /** Findings about the directories and the index as a whole. */
  predicate StoreWide(f: Finding) {
    f.DanglingTag? || f.StalePartial? || f.UnreferencedBlob? || f.UnreferencedLayer? || f.StrayDirectory?
  }

  /** The findings about the records not in `todo`, stale embeds as often as their tags. */
  ghost predicate RecordsChecked(d: Disk, todo: set<Id>, errors: seq<Finding>) {
    && (forall f :: f in errors <==> !StoreWide(f) && f.file !in todo && Reports(d, f))
    && (forall n, t :: n in d.records && n !in todo ==>
          multiset(errors)[StaleEmbed(n, t)] == StaleCount(d, d.records[n], t))
  }

  lemma RecordsStep(d: Disk, todo: set<Id>, errors: seq<Finding>, n: Id, found: seq<Finding>)
    requires RecordsChecked(d, todo, errors) && n in todo && n in d.records
    requires forall f :: f in found <==> ReportsRecord(d, n, d.records[n], f)
    requires forall t :: multiset(found)[StaleEmbed(n, t)] == StaleCount(d, d.records[n], t)
    ensures RecordsChecked(d, todo - {n}, errors + found)
  {
    forall m, t | m in d.records && m !in todo - {n}
      ensures multiset(errors + found)[StaleEmbed(m, t)] == StaleCount(d, d.records[m], t)
    {
      assert multiset(errors + found) == multiset(errors) + multiset(found);
      if m == n { assert StaleEmbed(m, t) !in errors; } else { assert StaleEmbed(m, t) !in found; }
    }
  }

  /** A report: exactly the inconsistencies there are, those of the records first. */
  ghost predicate ReportOf(d: Disk, errors: seq<Finding>) {
    && (forall f :: f in errors <==> Reports(d, f))
    && (forall i, j :: 0 <= i < j < |errors| && StoreWide(errors[i]) ==> StoreWide(errors[j]))
  }

  /** Read-only verification: the report holds exactly the inconsistencies there are. */
  method Check(d: Disk) returns (errors: seq<Finding>)
    ensures ReportOf(d, errors)
    ensures forall n, t :: n in d.records ==> multiset(errors)[StaleEmbed(n, t)] == StaleCount(d, d.records[n], t)
  {
    errors := [];
    var referenced: set<Digest>, layerRefs: set<Digest> := {}, {};
    var todo := d.records.Keys;
    while todo != {}
      invariant todo <= d.records.Keys
      invariant RecordsChecked(d, todo, errors)
      invariant forall b :: b in referenced <==>
        exists n :: n in d.records && n !in todo && b in RecordBlobRefs(d.records[n])
      invariant forall l :: l in layerRefs <==>
        exists n :: n in d.records && n !in todo && l in d.records[n].diffIds
      decreases |todo|
    {
      var n :| n in todo;
      var found := CheckRecord(d, n, d.records[n]);
      RecordsStep(d, todo, errors, n, found);
      errors := errors + found;
      referenced := referenced + Elements(RecordBlobRefs(d.records[n]));
      layerRefs := layerRefs + Elements(d.records[n].diffIds);
      todo := todo - {n};
    }
    var wide := CheckStore(d, referenced, layerRefs);
    forall n, t | n in d.records
      ensures multiset(errors + wide)[StaleEmbed(n, t)] == StaleCount(d, d.records[n], t)
    {
      CountBetween([], errors, wide, StaleEmbed(n, t));
      assert [] + errors + wide == errors + wide;
    }
    ReportParts(d, errors, wide);
    errors := errors + wide;
  }

  lemma ReportParts(d: Disk, records: seq<Finding>, wide: seq<Finding>)
    requires forall f :: f in records <==> !StoreWide(f) && Reports(d, f)
    requires forall f :: f in wide <==> StoreWide(f) && Reports(d, f)
    ensures ReportOf(d, records + wide)
  {
    var errors := records + wide;
    assert forall i :: 0 <= i < |records| ==> errors[i] == records[i] && records[i] in records;
    forall i, j | 0 <= i < j < |errors| && StoreWide(errors[i]) ensures StoreWide(errors[j]) {
      assert errors[j] == wide[j - |records|] && wide[j - |records|] in wide;
    }
  }

  /** Tags without a record, unfinished downloads, and content nothing roots. */
  method CheckStore(d: Disk, referenced: set<Digest>, layerRefs: set<Digest>) returns (errors: seq<Finding>)
    requires forall b :: b in referenced <==> exists n :: n in d.records && b in RecordBlobRefs(d.records[n])
    requires forall l :: l in layerRefs <==> exists n :: n in d.records && l in d.records[n].diffIds
    ensures forall f :: f in errors <==> StoreWide(f) && Reports(d, f)
  {
    errors := [];
    var tags := d.index.Keys;
    while tags != {}
      invariant tags <= d.index.Keys
      invariant forall f :: f in errors <==> f.DanglingTag? && f.tag !in tags && Reports(d, f)
      decreases |tags|
    {
      var t :| t in tags;
      if d.index[t] !in d.records {
        errors := errors + [DanglingTag(t)];
      }
      tags := tags - {t};
    }
    var blobs := CheckBlobs(d, referenced);
    var layers := CheckLayers(d, layerRefs);
    errors := errors + blobs + layers;
  }

  method CheckBlobs(d: Disk, referenced: set<Digest>) returns (errors: seq<Finding>)
    requires forall b :: b in referenced <==> exists n :: n in d.records && b in RecordBlobRefs(d.records[n])
    ensures forall f :: f in errors <==> (f.StalePartial? || f.UnreferencedBlob?) && Reports(d, f)
  {
    errors := [];
    var files := d.blobs;
    while files != {}
      invariant files <= d.blobs
      invariant forall f :: f in errors <==> f.UnreferencedBlob? && f.digest !in files && Reports(d, f)
      decreases |files|
    {
      var b :| b in files;
      if b !in referenced && b !in d.cacheBlobs {
        errors := errors + [UnreferencedBlob(b)];
      }
      files := files - {b};
    }
    var parts := d.partials;
    while parts != {}
      invariant parts <= d.partials
      invariant forall f :: f in errors <==>
        (f.UnreferencedBlob? || (f.StalePartial? && f.name !in parts)) && Reports(d, f)
      decreases |parts|
    {
      var p :| p in parts;
      errors := errors + [StalePartial(p)];
      parts := parts - {p};
    }
  }

  /** Everything under layers/ that neither a record nor the builder cache names. */
  method CheckLayers(d: Disk, layerRefs: set<Digest>) returns (errors: seq<Finding>)
    requires forall l :: l in layerRefs <==> exists n :: n in d.records && l in d.records[n].diffIds
    ensures forall f :: f in errors <==> (f.UnreferencedLayer? || f.StrayDirectory?) && Reports(d, f)
  {
    errors := [];
    var dirs := d.layers;
    while dirs != {}
      invariant dirs <= d.layers
      invariant forall f :: f in errors <==> f.UnreferencedLayer? && f.digest !in dirs && Reports(d, f)
      decreases |dirs|
    {
      var l :| l in dirs;
      if l !in layerRefs && l !in d.cacheLayers {
        errors := errors + [UnreferencedLayer(l)];
      }
      dirs := dirs - {l};
    }
    var strays := CheckStrays(d);
    errors := errors + strays;
  }

  /** What is under layers/ beside the layers. */
  method CheckStrays(d: Disk) returns (errors: seq<Finding>)
    ensures forall f :: f in errors <==> f.StrayDirectory? && Reports(d, f)
  {
    errors := [];
    var strays := d.strays;
    while strays != {}
      invariant strays <= d.strays
      invariant forall f :: f in errors <==> f.StrayDirectory? && f.stray !in strays && Reports(d, f)
      decreases |strays|
    {
      var x :| x in strays;
      if x !in d.cacheStrays {
        errors := errors + [StrayDirectory(x)];
      }
      strays := strays - {x};
    }
  }

  // --- repair ------------------------------------------------------------

  /** The findings `repair` acts on. */
  predicate Fixable(f: Finding) {
    f.StaleEmbed? || f.DanglingTag? || f.StalePartial? || f.UnreferencedBlob?
  }

  /** Tags record `n` embeds that the findings in `done` call stale. */
  ghost function Evicted(d: Disk, n: Id, done: set<Finding>): set<Tag>
    requires n in d.records
  {
    set t | t in d.records[n].tags && StaleEmbed(n, t) in done
  }

  /** The disk once the findings in `done` have been acted on. */
  ghost function RepairedBy(d: Disk, done: set<Finding>): Disk {
    d.(index := map t | t in d.index && DanglingTag(t) !in done :: d.index[t],
       records := map n | n in d.records :: d.records[n].(tags := Minus(d.records[n].tags, Evicted(d, n, done))),
       blobs := (set b | b in d.blobs && UnreferencedBlob(b) !in done),
       partials := (set p | p in d.partials && StalePartial(p) !in done))
  }

  /** What a repair leaves: no tag without its record, no stale embed, no garbage blob. */
  ghost function Repaired(d: Disk): Disk {
    d.(index := map t | t in d.index && d.index[t] in d.records :: d.index[t],
       records := map n | n in d.records ::
         d.records[n].(tags := Minus(d.records[n].tags, StaleTags(d, d.records[n]))),
       blobs := (set b | b in d.blobs && BlobRooted(d, b)),
       partials := {})
  }

  function StaleTags(d: Disk, r: Record): set<Tag> {
    set t | t in r.tags && t in d.index && d.index[t] != r.id
  }

  lemma EvictedAll(d: Disk, done: set<Finding>, n: Id)
    requires forall f :: f in done <==> Reports(d, f)
    requires n in d.records
    ensures Evicted(d, n, done) == StaleTags(d, d.records[n])
  {
    forall t | t in d.records[n].tags ensures t in Evicted(d, n, done) <==> t in StaleTags(d, d.records[n]) {
      assert StaleEmbed(n, t) in done <==> Reports(d, StaleEmbed(n, t));
    }
  }

  lemma RepairedByAll(d: Disk, done: set<Finding>)
    requires forall f :: f in done <==> Reports(d, f)
    ensures RepairedBy(d, done) == Repaired(d)
  {
    var a, z := RepairedBy(d, done), Repaired(d);
    assert a.index == z.index by {
      forall t | t in d.index ensures t in a.index <==> t in z.index {
        assert DanglingTag(t) in done <==> Reports(d, DanglingTag(t));
      }
    }
    assert a.records == z.records by {
      forall n | n in d.records ensures a.records[n] == z.records[n] { EvictedAll(d, done, n); }
    }
    assert a.blobs == z.blobs by {
      forall b | b in d.blobs ensures b in a.blobs <==> b in z.blobs {
        assert UnreferencedBlob(b) in done <==> Reports(d, UnreferencedBlob(b));
      }
    }
    assert a.partials == z.partials by {
      forall p | p in d.partials ensures p !in a.partials {
        assert StalePartial(p) in done <==> Reports(d, StalePartial(p));
      }
    }
  }

  /** One finding acted on, after those in `done`. */
  function Act(d: Disk, f: Finding): Disk {
    match f
    case StalePartial(p) => d.(partials := d.partials - {p})
    case UnreferencedBlob(b) => d.(blobs := d.blobs - {b})
    case DanglingTag(t) => d.(index := d.index - {t})
    case StaleEmbed(n, t) =>
      if n in d.records && t in d.records[n].tags
      then d.(records := d.records[n := d.records[n].(tags := Minus(d.records[n].tags, {t}))])
      else d
    case _ => d
  }

  lemma EvictedStep(d: Disk, done: set<Finding>, f: Finding, n: Id)
    requires n in d.records && (f.StaleEmbed? ==> f.file in d.records)
    ensures Act(RepairedBy(d, done), f).records[n] == RepairedBy(d, done + {f}).records[n]
  {
    if f.StaleEmbed? && f.file == n && f.tag in d.records[n].tags {
      assert Evicted(d, n, done + {f}) == Evicted(d, n, done) + {f.tag};
      MinusMinus(d.records[n].tags, Evicted(d, n, done), {f.tag});
      if f.tag in Evicted(d, n, done) {
        assert Evicted(d, n, done) + {f.tag} == Evicted(d, n, done);
      }
    } else {
      assert Evicted(d, n, done + {f}) == Evicted(d, n, done);
    }
  }

  lemma ActRecords(d: Disk, done: set<Finding>, f: Finding)
    requires f.StaleEmbed? ==> f.file in d.records
    ensures Act(RepairedBy(d, done), f).records == RepairedBy(d, done + {f}).records
  {
    var a, z := Act(RepairedBy(d, done), f), RepairedBy(d, done + {f});
    assert a.records.Keys == d.records.Keys == z.records.Keys;
    forall n | n in d.records ensures a.records[n] == z.records[n] { EvictedStep(d, done, f, n); }
  }

  lemma ActBlobs(d: Disk, done: set<Finding>, f: Finding)
    ensures Act(RepairedBy(d, done), f).blobs == RepairedBy(d, done + {f}).blobs
    ensures Act(RepairedBy(d, done), f).partials == RepairedBy(d, done + {f}).partials
  {
  }

  lemma ActIndex(d: Disk, done: set<Finding>, f: Finding)
    ensures Act(RepairedBy(d, done), f).index == RepairedBy(d, done + {f}).index
  {
  }

  lemma ActStep(d: Disk, done: set<Finding>, f: Finding)
    requires f.StaleEmbed? ==> f.file in d.records
    ensures Act(RepairedBy(d, done), f) == RepairedBy(d, done + {f})
  {
    ActRecords(d, done, f);
    ActBlobs(d, done, f);
    ActIndex(d, done, f);
  }

  lemma RepairedByNone(d: Disk)
    ensures RepairedBy(d, {}) == d
  {
    var z := RepairedBy(d, {});
    forall n | n in d.records ensures z.records[n] == d.records[n] { assert Evicted(d, n, {}) == {}; }
    assert z.records == d.records && z.blobs == d.blobs && z.partials == d.partials && z.index == d.index;
  }

  // --- the writes of a repair, and a repair cut short ------------------------

  /** The write that acts on one finding, if there is one. */
  function FixWrites(d: Disk, f: Finding): seq<Write> {
    match f
    case StalePartial(p) => [RemovePartial(p)]
    case UnreferencedBlob(b) => [RemoveBlob(b)]
    case DanglingTag(t) => [WriteIndex(d.index - {t})]
    case StaleEmbed(n, t) =>
      if n in d.records && t in d.records[n].tags
      then [RewriteFile(n, d.records[n].(tags := Minus(d.records[n].tags, {t})))]
      else []
    case _ => []
  }

  lemma FixRun(d: Disk, f: Finding)
    ensures Run(d, FixWrites(d, f)) == Act(d, f)
  {
    if FixWrites(d, f) != [] { RunOne(d, FixWrites(d, f)[0]); }
  }

  /** `repair` acting on the findings in order. */
  function RepairPlan(d: Disk, errors: seq<Finding>): seq<Write>
    decreases |errors|
  {
    if errors == [] then [] else FixWrites(d, errors[0]) + RepairPlan(Act(d, errors[0]), errors[1..])
  }

  /** Findings about files that are there. */
  ghost predicate Filed(d: Disk, errors: seq<Finding>) {
    forall f :: f in errors && f.StaleEmbed? ==> f.file in d.records
  }

  /** The disk once `done` and then `errors` have been acted on, up to the `j`th write. */
  lemma {:induction false} RepairCut(d: Disk, done: set<Finding>, errors: seq<Finding>, j: nat) returns (k: nat)
    requires Filed(d, errors) && j <= |RepairPlan(RepairedBy(d, done), errors)|
    ensures k <= |errors| && (j == |RepairPlan(RepairedBy(d, done), errors)| ==> k == |errors|)
    ensures var x := RepairedBy(d, done);
            Run(x, RepairPlan(x, errors)[..j]) == RepairedBy(d, done + Elements(errors[..k]))
    decreases |errors|
  {
    var x := RepairedBy(d, done);
    var whole := |RepairPlan(x, errors)|;
    if errors == [] || (j == 0 && j < whole) {
      k := 0;
      assert done + Elements(errors[..0]) == done;
    } else {
      var f, rest := errors[0], errors[1..];
      assert f in errors;
      ActStep(d, done, f);
      var i := j - |FixWrites(x, f)|;
      var n := RepairCut(d, done + {f}, rest, i);
      k := n + 1;
      FixThenCut(x, f, RepairPlan(Act(x, f), rest), j);
      assert errors[..k] == [f] + rest[..n];
      ElementsCons(f, rest[..n]);
      assert done + {f} + Elements(rest[..n]) == done + Elements(errors[..k]);
    }
  }

  /** The writes for one finding come off the front of a cut plan. */
  lemma {:induction false} FixThenCut(x: Disk, f: Finding, rest: seq<Write>, j: nat)
    requires |FixWrites(x, f)| <= j <= |FixWrites(x, f)| + |rest|
    ensures Run(x, (FixWrites(x, f) + rest)[..j]) == Run(Act(x, f), rest[..j - |FixWrites(x, f)|])
  {
    var w := FixWrites(x, f);
    assert (w + rest)[..j] == w + rest[..j - |w|];
    FixRun(x, f);
    RunAppend(x, w, rest[..j - |w|]);
  }

  lemma {:induction false} PlanCons(x: Disk, g: Finding, rest: seq<Finding>)
    ensures RepairPlan(x, [g] + rest) == FixWrites(x, g) + RepairPlan(Act(x, g), rest)
  {
    assert ([g] + rest)[1..] == rest;
  }

  lemma DoneCons(done: set<Finding>, g: Finding, rest: seq<Finding>)
    ensures done + {g} + Elements(rest) == done + Elements([g] + rest)
  {
    ElementsCons(g, rest);
  }

  lemma {:induction false} PlanConsSnoc(x: Disk, g: Finding, rest: seq<Finding>, f: Finding, last: seq<Write>)
    requires RepairPlan(Act(x, g), rest + [f]) == RepairPlan(Act(x, g), rest) + last
    ensures RepairPlan(x, [g] + rest + [f]) == RepairPlan(x, [g] + rest) + last
  {
    assert [g] + rest + [f] == [g] + (rest + [f]);
    PlanCons(x, g, rest);
    PlanCons(x, g, rest + [f]);
  }

  lemma {:induction false} PlanSnoc(d: Disk, done: set<Finding>, errors: seq<Finding>, f: Finding)
    requires Filed(d, errors)
    ensures RepairPlan(RepairedBy(d, done), errors + [f])
            == RepairPlan(RepairedBy(d, done), errors) + FixWrites(RepairedBy(d, done + Elements(errors)), f)
    decreases |errors|
  {
    var x := RepairedBy(d, done);
    if errors == [] {
      assert done + Elements(errors) == done && [f][1..] == [];
    } else {
      var g, rest := errors[0], errors[1..];
      assert g in errors && errors == [g] + rest;
      ActStep(d, done, g);
      PlanSnoc(d, done + {g}, rest, f);
      DoneCons(done, g, rest);
      PlanConsSnoc(x, g, rest, f, FixWrites(RepairedBy(d, done + Elements(errors)), f));
    }
  }

  /** The plan for one finding more. */
  lemma RepairPlanSnoc(d: Disk, errors: seq<Finding>, f: Finding)
    requires forall g :: g in errors ==> Reports(d, g)
    ensures RepairPlan(d, errors + [f]) == RepairPlan(d, errors) + FixWrites(RepairedBy(d, Elements(errors)), f)
  {
    RepairedByNone(d);
    PlanSnoc(d, {}, errors, f);
    assert {} + Elements(errors) == Elements(errors);
  }

  /** Every prefix of a repair's writes leaves the disk with a prefix of the report acted on. */
  lemma RepairPrefix(d: Disk, errors: seq<Finding>, j: nat) returns (k: nat)
    requires ReportOf(d, errors) && j <= |RepairPlan(d, errors)|
    ensures k <= |errors| && Run(d, RepairPlan(d, errors)[..j]) == RepairedBy(d, Elements(errors[..k]))
    ensures j == |RepairPlan(d, errors)| ==> Run(d, RepairPlan(d, errors)[..j]) == Repaired(d)
  {
    RepairedByNone(d);
    k := RepairCut(d, {}, errors, j);
    assert {} + Elements(errors[..k]) == Elements(errors[..k]);
    if j == |RepairPlan(d, errors)| {
      assert errors[..k] == errors;
      RepairedByAll(d, Elements(errors));
    }
  }

  /** No dangling tag is dropped before every stale embed of it. */
  ghost predicate EmbedsFirst(d: Disk, done: set<Finding>) {
    forall n, t :: DanglingTag(t) in done && Reports(d, StaleEmbed(n, t)) ==> StaleEmbed(n, t) in done
  }

  lemma RootsKept(d: Disk, done: set<Finding>)
    ensures forall b :: BlobRooted(RepairedBy(d, done), b) == BlobRooted(d, b)
  {
    var z := RepairedBy(d, done);
    assert forall n :: n in d.records ==> RecordBlobRefs(z.records[n]) == RecordBlobRefs(d.records[n]);
  }

  /** Stale embeds an interrupted repair has not reached, of tags it has dropped from the index. */
  ghost function Overtaken(d: Disk, done: set<Finding>, n: Id): set<Tag>
    requires n in d.records
  {
    set t | t in StaleTags(d, d.records[n]) && StaleEmbed(n, t) !in done && DanglingTag(t) in done
  }

  lemma AgainTag(d: Disk, done: set<Finding>, n: Id, t: Tag)
    requires n in d.records && t in d.records[n].tags && (forall f :: f in done ==> Reports(d, f))
    ensures var z := RepairedBy(d, done);
            t in Evicted(d, n, done) || t in StaleTags(z, z.records[n])
            <==> t in StaleTags(d, d.records[n]) && t !in Overtaken(d, done, n)
  {
    assert StaleEmbed(n, t) in done ==> Reports(d, StaleEmbed(n, t));
  }

  /** What one record embeds after an interrupted repair and a whole one. */
  lemma AgainTags(d: Disk, done: set<Finding>, n: Id)
    requires n in d.records && forall f :: f in done ==> Reports(d, f)
    ensures Repaired(RepairedBy(d, done)).records[n]
            == d.records[n].(tags := Minus(d.records[n].tags, StaleTags(d, d.records[n]) - Overtaken(d, done, n)))
  {
    var z := RepairedBy(d, done);
    var r := d.records[n];
    var gone, later := Evicted(d, n, done), StaleTags(z, z.records[n]);
    MinusMinus(r.tags, gone, later);
    forall t | t in r.tags ensures t in gone + later <==> t in StaleTags(d, r) - Overtaken(d, done, n) {
      AgainTag(d, done, n, t);
    }
    MinusSame(r.tags, gone + later, StaleTags(d, r) - Overtaken(d, done, n));
  }

  lemma AgainIndex(d: Disk, done: set<Finding>)
    requires forall f :: f in done ==> Reports(d, f)
    ensures Repaired(RepairedBy(d, done)).index == Repaired(d).index
  {
    assert forall t :: DanglingTag(t) in done ==> Reports(d, DanglingTag(t));
  }

  lemma AgainRest(d: Disk, done: set<Finding>)
    requires forall f :: f in done ==> Reports(d, f)
    ensures var z := Repaired(RepairedBy(d, done)); z == Repaired(d).(records := z.records)
    ensures Repaired(RepairedBy(d, done)).records.Keys == d.records.Keys
  {
    var z := RepairedBy(d, done);
    RootsKept(d, done);
    AgainIndex(d, done);
    forall b | b in d.blobs && BlobRooted(d, b) ensures b in z.blobs {
      assert UnreferencedBlob(b) in done ==> Reports(d, UnreferencedBlob(b));
    }
    assert Repaired(z).blobs == Repaired(d).blobs;
  }

  lemma AgainSame(d: Disk, done: set<Finding>, n: Id)
    requires n in d.records && (forall f :: f in done ==> Reports(d, f)) && EmbedsFirst(d, done)
    ensures Repaired(RepairedBy(d, done)).records[n] == Repaired(d).records[n]
  {
    AgainTags(d, done, n);
    assert forall t :: t in StaleTags(d, d.records[n]) ==> Reports(d, StaleEmbed(n, t));
    assert Overtaken(d, done, n) == {};
    assert StaleTags(d, d.records[n]) - {} == StaleTags(d, d.records[n]);
  }

  lemma AgainRecords(d: Disk, done: set<Finding>)
    requires (forall f :: f in done ==> Reports(d, f)) && EmbedsFirst(d, done)
    ensures Repaired(RepairedBy(d, done)).records == Repaired(d).records
  {
    var y, z := Repaired(RepairedBy(d, done)).records, Repaired(d).records;
    assert y.Keys == d.records.Keys && z.Keys == d.records.Keys;
    forall n | n in d.records ensures y[n] == z[n] { AgainSame(d, done, n); }
  }

  lemma AgainDiffers(d: Disk, done: set<Finding>, n: Id, t: Tag)
    requires forall f :: f in done ==> Reports(d, f)
    requires DanglingTag(t) in done && Reports(d, StaleEmbed(n, t)) && StaleEmbed(n, t) !in done
    ensures n in d.records && Repaired(RepairedBy(d, done)).records[n] != Repaired(d).records[n]
  {
    AgainTags(d, done, n);
    assert t in Overtaken(d, done, n);
    assert t in Repaired(RepairedBy(d, done)).records[n].tags && t !in Repaired(d).records[n].tags;
  }

  /**
   * A repair that stopped with `done` acted on, and a second one: together they do what one
   * repair does, exactly when no dangling tag was dropped before every stale embed of it.
   */
  lemma RepairAgainIff(d: Disk, done: set<Finding>)
    requires forall f :: f in done ==> Reports(d, f)
    ensures Repaired(RepairedBy(d, done)) == Repaired(d) <==> EmbedsFirst(d, done)
  {
    if EmbedsFirst(d, done) {
      AgainRest(d, done);
      AgainRecords(d, done);
    } else {
      var n, t :| DanglingTag(t) in done && Reports(d, StaleEmbed(n, t)) && StaleEmbed(n, t) !in done;
      AgainDiffers(d, done, n, t);
    }
  }

  /** The report lists the records first, so a repair may stop anywhere in it. */
  lemma PrefixEmbedsFirst(d: Disk, errors: seq<Finding>, k: nat)
    requires ReportOf(d, errors) && k <= |errors|
    ensures EmbedsFirst(d, Elements(errors[..k]))
  {
    forall n, t | DanglingTag(t) in Elements(errors[..k]) && Reports(d, StaleEmbed(n, t))
      ensures StaleEmbed(n, t) in Elements(errors[..k])
    {
      var i :| 0 <= i < k && errors[i] == DanglingTag(t);
      assert StaleEmbed(n, t) in errors;
      var j :| 0 <= j < |errors| && errors[j] == StaleEmbed(n, t);
      assert j < i;
      assert errors[..k][j] == StaleEmbed(n, t);
    }
  }

  /** A repair cut short at any write, and a second repair, do what one repair does. */
  lemma RepairResumes(d: Disk, errors: seq<Finding>, j: nat)
    requires ReportOf(d, errors) && j <= |RepairPlan(d, errors)|
    ensures Repaired(Run(d, RepairPlan(d, errors)[..j])) == Repaired(d)
  {
    var k := RepairPrefix(d, errors, j);
    PrefixEmbedsFirst(d, errors, k);
    RepairAgainIff(d, Elements(errors[..k]));
  }

  /** A repair cut short loses nothing. */
  lemma RepairedByWhole(d: Disk, done: set<Finding>)
    requires Whole(d) && forall f :: f in done ==> Reports(d, f)
    ensures Whole(RepairedBy(d, done))
  {
    var z := RepairedBy(d, done);
    forall n | n in z.records ensures RecordSound(z, n, z.records[n]) {
      assert RecordSound(d, n, d.records[n]);
      assert n in RecordBlobRefs(d.records[n]);
      assert UnreferencedBlob(n) in done ==> Reports(d, UnreferencedBlob(n));
    }
    forall m, n | m in z.records && n in z.records ensures z.records[m].id !in z.records[n].layerBlobs {
      assert d.records[m].id !in d.records[n].layerBlobs;
    }
  }

  /** A tag that names no record, embedded in another. */
  const FORSAKEN := Disk(map["t" := "a"], map["b" := Record("b", ["t"], [], "", [], [])], {"b"}, {}, {}, {}, {}, {}, {})

  /** There the order matters: with the tag dropped first, no repair evicts the embed any more. */
  lemma WrongOrderSticks()
    ensures Reports(FORSAKEN, DanglingTag("t")) && Reports(FORSAKEN, StaleEmbed("b", "t"))
    ensures Repaired(RepairedBy(FORSAKEN, {DanglingTag("t")})) != Repaired(FORSAKEN)
  {
    assert "a" != "b";
    assert Reports(FORSAKEN, StaleEmbed("b", "t"));
    RepairAgainIff(FORSAKEN, {DanglingTag("t")});
  }

  /** A repair deletes no record and none of the content a record or the builder cache roots. */
  lemma RepairKeeps(d: Disk)
    ensures var z := Repaired(d);
            && z.records.Keys == d.records.Keys && z.layers == d.layers
            && (forall n :: n in d.records ==> z.records[n] == d.records[n].(tags := z.records[n].tags))
            && (forall b :: b in d.blobs && BlobRooted(d, b) ==> b in z.blobs)
            && (forall n, t :: n in d.records && t in d.records[n].tags && t !in StaleTags(d, d.records[n]) ==>
                  t in z.records[n].tags)
  {
  }

  /** Some record has `b` for its config or among its layers. */
  ghost predicate Referred(d: Disk, b: Digest) {
    exists n :: n in d.records && (b == d.records[n].id != "" || b in d.records[n].layerBlobs)
  }

  /**
   * A repair takes away exactly the embeds whose tag the index gives elsewhere, the index
   * entries of records that are not there, the blobs nothing roots, and partial downloads.
   */
  lemma RepairTakes(d: Disk)
    ensures var z := Repaired(d);
            && (forall n, t :: n in d.records ==>
                  (t in z.records[n].tags <==>
                   t in d.records[n].tags && !(t in d.index && d.index[t] != d.records[n].id)))
            && (forall t :: t in z.index <==> t in d.index && d.index[t] in d.records)
            && (forall t :: t in z.index ==> z.index[t] == d.index[t])
            && (forall b :: b in z.blobs <==> b in d.blobs && (b in d.cacheBlobs || Referred(d, b)))
            && z.partials == {} && z.layers == d.layers && z.strays == d.strays
  {
    var z := Repaired(d);
    forall b ensures BlobRooted(d, b) <==> b in d.cacheBlobs || Referred(d, b) {
      if n :| n in d.records && (b == d.records[n].id != "" || b in d.records[n].layerBlobs) {
        assert b in RecordBlobRefs(d.records[n]);
      }
    }
  }

  lemma RootsUnchanged(d: Disk)
    ensures forall b :: BlobRooted(Repaired(d), b) == BlobRooted(d, b)
    ensures forall l :: LayerRooted(Repaired(d), l) == LayerRooted(d, l)
  {
    var z := Repaired(d);
    assert forall n :: n in d.records ==> RecordBlobRefs(z.records[n]) == RecordBlobRefs(d.records[n]);
    assert forall n :: n in d.records ==> z.records[n].diffIds == d.records[n].diffIds;
  }

  /** The tag's index entry is dropped because no file bears the id it shares with the record. */
  ghost predicate Unhooked(d: Disk, n: Id, t: Tag) {
    && n in d.records && t in d.records[n].tags
    && t in d.index && d.index[t] == d.records[n].id && d.records[n].id !in d.records
  }

  /**
   * After a repair, a check finds exactly what it found before and could not fix,
   * plus the tags of misnamed records whose index entry the repair dropped.
   */
  lemma RepairReport(d: Disk, f: Finding)
    ensures Reports(Repaired(d), f) <==>
            (Reports(d, f) && !Fixable(f)) || (f.NotInIndex? && Unhooked(d, f.file, f.tag))
  {
    if StoreWide(f) {
      RootsUnchanged(d);
    } else if f.file in d.records {
      RepairRecordReport(d, f.file, f);
    }
  }

  /** The findings about one record, before and after. */
  lemma RepairRecordReport(d: Disk, n: Id, f: Finding)
    requires n in d.records
    ensures ReportsRecord(Repaired(d), n, Repaired(d).records[n], f) <==>
            || (ReportsRecord(d, n, d.records[n], f) && !Fixable(f))
            || (f.NotInIndex? && f.file == n && Unhooked(d, n, f.tag))
  {
    var z := Repaired(d);
    var r, r' := d.records[n], z.records[n];
    assert r' == r.(tags := r'.tags);
    RootedStay(d, n);
  }

  /** The blobs a record roots are there after a repair exactly when they were before. */
  lemma RootedStay(d: Disk, n: Id)
    requires n in d.records
    ensures var r := d.records[n];
            && (r.id != "" ==> (r.id in Repaired(d).blobs <==> r.id in d.blobs))
            && forall b :: b in r.layerBlobs ==> (b in Repaired(d).blobs <==> b in d.blobs)
  {
    var r := d.records[n];
    assert forall b :: b in RecordBlobRefs(r) ==> BlobRooted(d, b);
    assert forall b :: b in r.layerBlobs ==> b in RecordBlobRefs(r);
  }

  /** A second repair changes nothing. */
  lemma RepairIdempotent(d: Disk)
    ensures Repaired(Repaired(d)) == Repaired(d)
  {
    var z := Repaired(d);
    var y := Repaired(z);
    RootsUnchanged(d);
    forall n | n in z.records ensures y.records[n] == z.records[n] {
      assert StaleTags(z, z.records[n]) == {};
    }
    assert y.records == z.records && y.blobs == z.blobs && y.partials == z.partials && y.index == z.index;
  }

  /** A crash at any write of any operation, then a repair: nothing lost, and only leftovers remain. */
  lemma CrashThenRepair(d: Disk, c: Command, k: nat, f: Finding)
    requires Whole(d) && Legal(d, c) && DropsAll(d, c) && k <= |Plan(d, c)|
    requires Reports(Repaired(Run(d, Plan(d, c)[..k])), f)
    ensures f.NotInIndex? || f.UnreferencedLayer? || f.StrayDirectory?
  {
    var z := Run(d, Plan(d, c)[..k]);
    CrashLosesNothing(d, c, k);
    RepairReport(z, f);
    assert !Severe(f) || !Reports(z, f);
  }

  /** A record filed under a name that is not its id, its tag indexed under that id. */
  const MISFILED := Disk(map["t" := "a"], map["b" := Record("a", ["t"], [], "", [], [])], {"a"}, {}, {}, {}, {}, {}, {})

  /** There the repair drops the tag from the index, and the record's embed is newly reported. */
  lemma RepairUnhooks()
    ensures !Reports(MISFILED, NotInIndex("b", "t")) && Reports(Repaired(MISFILED), NotInIndex("b", "t"))
  {
    assert "a" != "b";
    RepairReport(MISFILED, NotInIndex("b", "t"));
  }

  /** A repair loses nothing. */
  lemma RepairKeepsWhole(d: Disk)
    requires Whole(d)
    ensures Whole(Repaired(d))
  {
    var z := Repaired(d);
    forall n | n in z.records ensures RecordSound(z, n, z.records[n]) {
      assert RecordSound(d, n, d.records[n]);
      RootedStay(d, n);
    }
    forall m, n | m in z.records && n in z.records ensures z.records[m].id !in z.records[n].layerBlobs {
      assert d.records[m].id !in d.records[n].layerBlobs;
    }
  }
}
