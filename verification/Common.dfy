/** Options, results, bytes and the few facts about sequences that several components share. */
module Common {

  datatype Option<+T> = None | Some(value: T)

  datatype Result<+T, +E> = Ok(value: T) | Err(error: E)

  newtype byte = b: int | 0 <= b < 256

  type Bytes = seq<byte>

  function Max(a: int, b: int): int {
    if a < b then b else a
  }

  function Min(a: int, b: int): int {
    if a < b then a else b
  }

  /** Everything from offset n on; nothing when n is past the end. */
  function From<T>(s: seq<T>, n: nat): seq<T> {
    if n <= |s| then s[n..] else []
  }

  /** At most n elements from the front. */
  function Upto<T>(s: seq<T>, n: nat): seq<T> {
    if n <= |s| then s[..n] else s
  }

  /** What a file holding s returns for a read of n bytes at offset at. */
  function Window<T>(s: seq<T>, at: nat, n: nat): seq<T> {
    Upto(From(s, at), n)
  }

  function Concat<T>(parts: seq<seq<T>>): seq<T> {
    if parts == [] then [] else Concat(parts[..|parts| - 1]) + parts[|parts| - 1]
  }

  lemma ConcatSnoc<T>(parts: seq<seq<T>>, last: seq<T>)
    ensures Concat(parts + [last]) == Concat(parts) + last
  {
    assert (parts + [last])[..|parts|] == parts;
  }

  lemma {:induction false} ConcatAppend<T>(a: seq<seq<T>>, b: seq<seq<T>>)
    ensures Concat(a + b) == Concat(a) + Concat(b)
  {
    if b == [] {
      assert a + b == a;
    } else {
      var k := |b| - 1;
      assert a + b == (a + b[..k]) + [b[k]];
      ConcatSnoc(a + b[..k], b[k]);
      ConcatAppend(a, b[..k]);
    }
  }

  lemma PushOut<T>(a: seq<T>, b: seq<T>, c: seq<T>)
    ensures a + b + c == a + (b + c)
  {
  }

  /** Reading a and then b bytes is reading a + b bytes. */
  lemma WindowSplit<T>(s: seq<T>, at: nat, a: nat, b: nat)
    ensures Window(s, at, a) + Window(s, at + a, b) == Window(s, at, a + b)
  {
  }

  /** No element occurs twice. */
  ghost predicate Distinct<T>(s: seq<T>) {
    forall i, j :: 0 <= i < j < |s| ==> s[i] != s[j]
  }

  lemma DistinctSnoc<T>(s: seq<T>, x: T)
    requires Distinct(s) && x !in s
    ensures Distinct(s + [x])
  {
  }

  ghost predicate Increasing(s: seq<nat>) {
    forall i, j :: 0 <= i < j < |s| ==> s[i] < s[j]
  }

  lemma IncreasingSnoc(s: seq<nat>, x: nat)
    requires Increasing(s) && forall i :: 0 <= i < |s| ==> s[i] < x
    ensures Increasing(s + [x])
  {
  }

  /** The numbers below n that p admits, in order. */
  function Where(n: nat, p: nat -> bool): (r: seq<nat>)
    ensures Increasing(r) && forall i: nat :: i in r <==> i < n && p(i)
    ensures forall j :: 0 <= j < |r| ==> r[j] < n && p(r[j])
  {
    if n == 0 then []
    else
      var before := Where(n - 1, p);
      if p(n - 1) then before + [n - 1] else before
  }

  function Below(n: nat): (r: set<nat>)
    ensures |r| == n && forall k: nat :: k in r <==> k < n
  {
    if n == 0 then {} else Below(n - 1) + {n - 1}
  }

  /** The pigeonhole principle: numbers below n cannot be listed n + 1 times without a repetition. */
  lemma DistinctBound(s: seq<nat>, n: nat)
    requires Distinct(s) && forall i :: 0 <= i < |s| ==> s[i] < n
    ensures |s| <= n
  {
    var named := set i | 0 <= i < |s| :: s[i];
    CardinalityNamed(s);
    assert named <= Below(n);
    SubsetCardinality(named, Below(n));
  }

  lemma {:induction false} SubsetCardinality<T>(a: set<T>, b: set<T>)
    requires a <= b
    ensures |a| <= |b|
    decreases a
  {
    if a != {} {
      var x :| x in a;
      SubsetCardinality(a - {x}, b - {x});
    }
  }

  lemma {:induction false} CardinalityNamed<T>(s: seq<T>)
    requires Distinct(s)
    ensures |set i | 0 <= i < |s| :: s[i]| == |s|
  {
    if s != [] {
      var k := |s| - 1;
      CardinalityNamed(s[..k]);
      assert (set i | 0 <= i < |s| :: s[i]) == (set i | 0 <= i < k :: s[..k][i]) + {s[k]};
    }
  }
}
