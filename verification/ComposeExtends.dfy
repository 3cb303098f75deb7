/** `extends` within one compose file: recursive inheritance with a shallow, field-wise merge. */
module ComposeExtends {
  import opened Common

  type Name = string

  /** The keys a service sets, apart from `extends`, and the base it names. */
  datatype Service = Service(fields: map<string, string>, parent: Option<Name>)

  type File = map<Name, Service>

  datatype ExtendsError = UnknownService | EmptyBase | CycleDetected

  /** Keys set in the override win whole; the others fall back to the base. */
  function Merge(base: Service, over: Service): Service {
    Service(base.fields + over.fields, None)
  }

  /** `resolve_service`, with the services already on the way. */
  function Resolve(file: File, name: Name, stack: seq<Name>): Result<Service, ExtendsError>
    decreases |file.Keys - Elements(stack)|
  {
    if name !in file then Err(UnknownService)
    else
      var svc := file[name];
      if svc.parent.None? then Ok(svc)
      else
        var base := svc.parent.value;
        if base == "" then Err(EmptyBase)
        else if base in stack then Err(CycleDetected)
        else if base !in file then Err(UnknownService)
        else
          StackGrows(file, stack, base);
          var r := Resolve(file, base, stack + [base]);
          if r.Err? then r else Ok(Merge(r.value, svc))
  }

  lemma StackGrows(file: File, stack: seq<Name>, base: Name)
    requires base in file && base !in stack
    ensures |file.Keys - Elements(stack + [base])| < |file.Keys - Elements(stack)|
  {
    ElementsSnoc(stack, base);
    assert file.Keys - Elements(stack) == (file.Keys - Elements(stack + [base])) + {base};
  }

  /** `apply_extends`: every service resolved against the original file, or the first failure met. */
  method ApplyExtends(file: File) returns (r: Result<File, ExtendsError>)
    ensures r.Ok? <==> forall n :: n in file ==> Resolve(file, n, [n]).Ok?
    ensures r.Ok? ==> r.value.Keys == file.Keys
                      && forall n :: n in file ==> Resolve(file, n, [n]) == Ok(r.value[n])
    ensures r.Err? ==> exists n :: n in file && Resolve(file, n, [n]) == Err(r.error)
  {
    var merged := file;
    var todo := file.Keys;
    while todo != {}
      invariant todo <= file.Keys && merged.Keys == file.Keys
      invariant forall n :: n in file && n !in todo ==> Resolve(file, n, [n]) == Ok(merged[n])
      decreases |todo|
    {
      var n :| n in todo;
      var svc := Resolve(file, n, [n]);
      if svc.Err? {
        return Err(svc.error);
      }
      merged := merged[n := svc.value];
      todo := todo - {n};
    }
    return Ok(merged);
  }

  // --- chains --------------------------------------------------------------------

  /** Services of the file, each extending the next, none twice. */
  ghost predicate IsChain(file: File, c: seq<Name>) {
    && c != [] && NoRepeats(c)
    && (forall i :: 0 <= i < |c| ==> c[i] in file)
    && (forall i :: 0 <= i < |c| - 1 ==> Linked(file, c, i))
  }

  ghost predicate Linked(file: File, c: seq<Name>, i: int)
    requires 0 <= i < |c| - 1 && c[i] in file
  {
    file[c[i]].parent == Some(c[i + 1]) && c[i + 1] != ""
  }

  /** Why a chain goes no further. */
  datatype End = AtBase | AtEmpty | AtUnknown | AtCycle | GoesOn

  ghost function EndOf(file: File, c: seq<Name>): End
    requires IsChain(file, c)
  {
    var e := file[c[|c| - 1]].parent;
    if e.None? then AtBase
    else if e.value == "" then AtEmpty
    else if e.value in c then AtCycle
    else if e.value !in file then AtUnknown
    else GoesOn
  }

  ghost predicate WholeChain(file: File, c: seq<Name>) {
    IsChain(file, c) && EndOf(file, c) != GoesOn
  }

  /** The nearest service of the chain, from `k` on, that sets field `f`, sets it to `v`. */
  ghost predicate Nearest(file: File, c: seq<Name>, k: nat, f: string, v: string)
    requires forall i :: 0 <= i < |c| ==> c[i] in file
  {
    exists i :: k <= i < |c| && f in file[c[i]].fields && file[c[i]].fields[f] == v
                && forall j :: k <= j < i ==> f !in file[c[j]].fields
  }

  lemma LongerChain(file: File, c: seq<Name>)
    requires IsChain(file, c) && EndOf(file, c) == GoesOn
    ensures IsChain(file, c + [file[c[|c| - 1]].parent.value])
  {
    var longer := c + [file[c[|c| - 1]].parent.value];
    forall i | 0 <= i < |longer| - 1 ensures Linked(file, longer, i) {
      if i < |c| - 1 { assert Linked(file, c, i); }
    }
  }

  /** Every service has a whole chain. */
  lemma {:induction false} ChainExists(file: File, c: seq<Name>)
    requires IsChain(file, c)
    ensures exists w :: WholeChain(file, w) && c <= w
    decreases |file.Keys - Elements(c)|
  {
    if EndOf(file, c) == GoesOn {
      var base := file[c[|c| - 1]].parent.value;
      var longer := c + [base];
      StackGrows(file, c, base);
      LongerChain(file, c);
      ChainExists(file, longer);
      var w :| WholeChain(file, w) && longer <= w;
      assert c <= w;
    } else {
      assert WholeChain(file, c) && c <= c;
    }
  }

  /** Two whole chains from the same service are the same chain. */
  lemma {:induction false} ChainsAgree(file: File, a: seq<Name>, b: seq<Name>, k: nat)
    requires IsChain(file, a) && IsChain(file, b) && a[0] == b[0] && k < |a| && k < |b|
    ensures a[..k + 1] == b[..k + 1]
    decreases k
  {
    if k == 0 {
      assert a[..1] == [a[0]] && b[..1] == [b[0]];
    } else {
      ChainsAgree(file, a, b, k - 1);
      assert Linked(file, a, k - 1) && Linked(file, b, k - 1);
      assert a[..k][k - 1] == a[k - 1] && b[..k][k - 1] == b[k - 1];
      assert a[..k + 1] == a[..k] + [a[k]] && b[..k + 1] == b[..k] + [b[k]];
    }
  }

  lemma WholeChainUnique(file: File, a: seq<Name>, b: seq<Name>)
    requires WholeChain(file, a) && WholeChain(file, b) && a[0] == b[0]
    ensures a == b
  {
    if |a| < |b| {
      LongerGoesOn(file, a, b);
    } else if |b| < |a| {
      LongerGoesOn(file, b, a);
    } else {
      ChainsAgree(file, a, b, |a| - 1);
      assert a[..|a|] == a && b[..|b|] == b;
    }
  }

  lemma LongerGoesOn(file: File, a: seq<Name>, b: seq<Name>)
    requires IsChain(file, a) && IsChain(file, b) && a[0] == b[0] && |a| < |b|
    ensures EndOf(file, a) == GoesOn
  {
    var n := |a|;
    ChainsAgree(file, a, b, n - 1);
    assert a[..n] == a && b[..n] == a;
    assert b[n - 1] == a[n - 1] && Linked(file, b, n - 1);
    forall i | 0 <= i < n ensures a[i] != b[n] { assert b[..n][i] == b[i]; }
  }

  // --- what resolution computes ----------------------------------------------------

  /** Which results a chain's end allows. */
  ghost predicate Fits(end: End, r: Result<Service, ExtendsError>) {
    match end
    case AtBase => r.Ok?
    case AtEmpty => r == Err(EmptyBase)
    case AtUnknown => r == Err(UnknownService)
    case AtCycle => r == Err(CycleDetected)
    case GoesOn => false
  }

  /** One service of the chain resolves to itself merged over the resolution of the next. */
  lemma ResolveStep(file: File, c: seq<Name>, k: nat)
    requires IsChain(file, c) && k + 1 < |c|
    ensures var b := Resolve(file, c[k + 1], c[..k + 2]);
            Resolve(file, c[k], c[..k + 1]) == if b.Err? then b else Ok(Merge(b.value, file[c[k]]))
  {
    assert Linked(file, c, k);
    assert c[..k + 2] == c[..k + 1] + [c[k + 1]];
    assert c[k + 1] !in c[..k + 1];
    StackGrows(file, c[..k + 1], c[k + 1]);
  }

  /** The resolved service holds exactly the nearest value of every field. */
  ghost predicate Inherits(file: File, c: seq<Name>, k: nat, svc: Service)
    requires forall i :: 0 <= i < |c| ==> c[i] in file
  {
    && svc.parent.None?
    && forall f, v :: (f in svc.fields && svc.fields[f] == v) <==> Nearest(file, c, k, f, v)
  }

  /** Resolution from the k-th service of a whole chain on, the earlier ones on the stack. */
  lemma {:induction false} ResolveAlong(file: File, c: seq<Name>, k: nat)
    requires WholeChain(file, c) && k < |c|
    ensures var r := Resolve(file, c[k], c[..k + 1]);
            Fits(EndOf(file, c), r) && (r.Ok? ==> Inherits(file, c, k, r.value))
    decreases |c| - k
  {
    if k == |c| - 1 {
      assert c[..k + 1] == c;
      if file[c[k]].parent.None? { InheritsOwn(file, c, k); }
    } else {
      ResolveAlong(file, c, k + 1);
      ResolveStep(file, c, k);
      var b := Resolve(file, c[k + 1], c[..k + 2]);
      if b.Ok? { InheritsMore(file, c, k, b.value); }
    }
  }

  lemma InheritsOwn(file: File, c: seq<Name>, k: nat)
    requires IsChain(file, c) && k == |c| - 1 && file[c[k]].parent.None?
    ensures Inherits(file, c, k, file[c[k]])
  {
    var svc := file[c[k]];
    forall f, v ensures (f in svc.fields && svc.fields[f] == v) <==> Nearest(file, c, k, f, v) {
      NearestStep(file, c, k, f, v);
    }
  }

  lemma InheritsMore(file: File, c: seq<Name>, k: nat, base: Service)
    requires IsChain(file, c) && k + 1 < |c| && Inherits(file, c, k + 1, base)
    ensures Inherits(file, c, k, Merge(base, file[c[k]]))
  {
    var svc := Merge(base, file[c[k]]);
    forall f, v ensures (f in svc.fields && svc.fields[f] == v) <==> Nearest(file, c, k, f, v) {
      NearestStep(file, c, k, f, v);
      assert (f in base.fields && base.fields[f] == v) <==> Nearest(file, c, k + 1, f, v);
    }
  }

  /** The override first, then the rest of the chain. */
  lemma NearestStep(file: File, c: seq<Name>, k: nat, f: string, v: string)
    requires k < |c| && forall i :: 0 <= i < |c| ==> c[i] in file
    ensures var own := file[c[k]].fields;
            Nearest(file, c, k, f, v) <==> if f in own then own[f] == v else Nearest(file, c, k + 1, f, v)
  {
    var own := file[c[k]].fields;
    if Nearest(file, c, k, f, v) {
      var i :| k <= i < |c| && f in file[c[i]].fields && file[c[i]].fields[f] == v
               && forall j :: k <= j < i ==> f !in file[c[j]].fields;
      if f in own { assert i == k; }
    }
    if f in own && own[f] == v { assert Nearest(file, c, k, f, v); }
    if f !in own && Nearest(file, c, k + 1, f, v) {
      var i :| k + 1 <= i < |c| && f in file[c[i]].fields && file[c[i]].fields[f] == v
               && forall j :: k + 1 <= j < i ==> f !in file[c[j]].fields;
      assert forall j :: k <= j < i ==> f !in file[c[j]].fields;
    }
  }

  /**
   * For the whole chain of a service: resolution fails exactly when the chain meets an
   * empty base name, an unknown service or itself, and otherwise gives every field the
   * value of the nearest service that sets it, with no `extends` left.
   */
  lemma ResolveIs(file: File, c: seq<Name>)
    requires WholeChain(file, c)
    ensures var r := Resolve(file, c[0], [c[0]]);
            Fits(EndOf(file, c), r) && (r.Ok? ==> Inherits(file, c, 0, r.value))
  {
    assert c[..1] == [c[0]];
    ResolveAlong(file, c, 0);
  }

  /** Every service of the file has exactly one whole chain, so the above decides every resolution. */
  lemma WholeChainOf(file: File, name: Name)
    requires name in file
    ensures exists c :: WholeChain(file, c) && c[0] == name
    ensures forall a, b :: WholeChain(file, a) && WholeChain(file, b) && a[0] == name && b[0] == name ==> a == b
  {
    assert IsChain(file, [name]);
    ChainExists(file, [name]);
    var c :| WholeChain(file, c) && [name] <= c;
    assert c[0] == name;
    forall a, b | WholeChain(file, a) && WholeChain(file, b) && a[0] == name && b[0] == name ensures a == b {
      WholeChainUnique(file, a, b);
    }
  }
}
