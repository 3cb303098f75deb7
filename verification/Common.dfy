/** Small helpers shared by every component of the model. */
module Common {

  datatype Option<+T> = None | Some(value: T)

  datatype Result<+T, +E> = Ok(value: T) | Err(error: E)

  /** The distinct elements of a list. */
  function Elements<T>(s: seq<T>): set<T> {
    set x | x in s
  }

  lemma ElementsCons<T>(x: T, s: seq<T>)
    ensures Elements([x] + s) == {x} + Elements(s)
  {
  }

  lemma ElementsSnoc<T>(s: seq<T>, x: T)
    ensures Elements(s + [x]) == Elements(s) + {x}
  {
  }

  /** The list without the elements of `bad`, order kept. */
  function Minus<T(==, !new)>(s: seq<T>, bad: set<T>): (r: seq<T>)
    ensures forall x :: x in r <==> x in s && x !in bad
    ensures (forall x :: x in s ==> x !in bad) ==> r == s
  {
    if s == [] then []
    else if s[0] in bad then Minus(s[1..], bad)
    else [s[0]] + Minus(s[1..], bad)
  }

  lemma {:induction false} MinusAll<T(!new)>(s: seq<T>, bad: set<T>)
    requires forall x :: x in s ==> x in bad
    ensures Minus(s, bad) == []
  {
    if s != [] {
      MinusAll(s[1..], bad);
    }
  }

  lemma {:induction false} MinusSame<T(!new)>(s: seq<T>, a: set<T>, b: set<T>)
    requires forall x :: x in s ==> (x in a <==> x in b)
    ensures Minus(s, a) == Minus(s, b)
  {
    if s != [] {
      MinusSame(s[1..], a, b);
    }
  }

  lemma {:induction false} MinusMinus<T(!new)>(s: seq<T>, a: set<T>, b: set<T>)
    ensures Minus(Minus(s, a), b) == Minus(s, a + b)
  {
    if s != [] {
      MinusMinus(s[1..], a, b);
      if s[0] !in a {
        assert ([s[0]] + Minus(s[1..], a))[1..] == Minus(s[1..], a);
      }
    }
  }

  /** `a` followed by the elements of `b` it does not hold yet. */
  function Union<T(==, !new)>(a: seq<T>, b: seq<T>): (r: seq<T>)
    ensures a <= r
    ensures forall x :: x in r <==> x in a || x in b
    decreases |b|
  {
    if b == [] then a
    else if b[0] in a then Union(a, b[1..])
    else Union(a + [b[0]], b[1..])
  }

  ghost predicate NoRepeats<T(!new)>(s: seq<T>) {
    forall i, j :: 0 <= i < j < |s| ==> s[i] != s[j]
  }

  // --- byte streams ------------------------------------------------------

  newtype Byte = x: int | 0 <= x < 256
  type Bytes = seq<Byte>

  function Concat(chunks: seq<Bytes>): Bytes {
    if chunks == [] then [] else chunks[0] + Concat(chunks[1..])
  }

  lemma {:induction false} ConcatSplit(chunks: seq<Bytes>, k: nat)
    requires k <= |chunks|
    ensures Concat(chunks) == Concat(chunks[..k]) + Concat(chunks[k..])
  {
    if k == 0 {
      assert chunks[..0] == [] && chunks[0..] == chunks;
    } else {
      ConcatSplit(chunks[1..], k - 1);
      assert chunks[..k][1..] == chunks[1..][..k - 1] && chunks[k..] == chunks[1..][k - 1..];
    }
  }

  lemma ConcatNext(chunks: seq<Bytes>, k: nat)
    requires k < |chunks|
    ensures Concat(chunks[..k + 1]) == Concat(chunks[..k]) + chunks[k]
  {
    ConcatSplit(chunks[..k + 1], k);
    assert chunks[..k + 1][..k] == chunks[..k];
    assert chunks[..k + 1][k..] == [chunks[k]];
    assert Concat([chunks[k]]) == chunks[k] + Concat([]);
  }
}
