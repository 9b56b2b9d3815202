/** The histogram meter, over exact reals. */
module Histogram {
  import opened Wrappers

  datatype Bucket = Bucket(bound: real, count: nat)

  function Insert(x: real, s: seq<real>): seq<real> {
    if s == [] || x <= s[0] then [x] + s else [s[0]] + Insert(x, s[1..])
  }

  function Sort(s: seq<real>): seq<real> {
    if s == [] then [] else Insert(s[0], Sort(s[1..]))
  }

  /** s without elements that equal the one before them. */
  function Dedup(s: seq<real>): seq<real> {
    if |s| <= 1 then s
    else if s[0] == s[1] then Dedup(s[1..])
    else [s[0]] + Dedup(s[1..])
  }

  predicate Increasing(s: seq<real>) {
    forall i, j :: 0 <= i < j < |s| ==> s[i] <= s[j]
  }

  predicate StrictlyIncreasing(s: seq<real>) {
    forall i, j :: 0 <= i < j < |s| ==> s[i] < s[j]
  }

  lemma {:induction false} InsertSorted(x: real, s: seq<real>)
    requires Increasing(s)
    ensures Increasing(Insert(x, s)) && forall y :: y in Insert(x, s) <==> y == x || y in s
    decreases |s|
  {
    if s != [] && x > s[0] {
      InsertSorted(x, s[1..]);
      var t := Insert(x, s[1..]);
      assert forall y :: y in s <==> y == s[0] || y in s[1..];
      assert forall j :: 0 <= j < |s| - 1 ==> s[1..][j] == s[j + 1] && s[0] <= s[1..][j];
      forall k | 0 <= k < |t| ensures s[0] <= t[k] {
        assert t[k] in t;
      }
    }
  }

  lemma {:induction false} SortSorted(s: seq<real>)
    ensures Increasing(Sort(s)) && forall y :: y in Sort(s) <==> y in s
    decreases |s|
  {
    if s != [] {
      SortSorted(s[1..]);
      InsertSorted(s[0], Sort(s[1..]));
      assert forall y :: y in s <==> y == s[0] || y in s[1..];
    }
  }

  lemma {:induction false} DedupStrict(s: seq<real>)
    requires Increasing(s)
    ensures StrictlyIncreasing(Dedup(s)) && forall y :: y in Dedup(s) <==> y in s
    decreases |s|
  {
    if |s| > 1 {
      DedupStrict(s[1..]);
      var t := Dedup(s[1..]);
      assert forall y :: y in s <==> y == s[0] || y in s[1..];
      if s[0] != s[1] {
        assert forall j :: 0 <= j < |s| - 1 ==> s[1..][j] == s[j + 1] && s[1] <= s[1..][j];
        forall k | 0 <= k < |t| ensures s[0] < t[k] {
          assert t[k] in t;
        }
      }
    }
  }

  /** The bounds of a new histogram. */
  function Bounds(steps: seq<real>): seq<real> {
    Dedup(Sort(steps))
  }

  lemma BoundsStrict(steps: seq<real>)
    ensures StrictlyIncreasing(Bounds(steps)) && forall y :: y in Bounds(steps) <==> y in steps
  {
    SortSorted(steps);
    DedupStrict(Sort(steps));
  }

  function BoundsOf(b: seq<Bucket>): (r: seq<real>)
    ensures |r| == |b| && forall k :: 0 <= k < |b| ==> r[k] == b[k].bound
  {
    seq(|b|, k requires 0 <= k < |b| => b[k].bound)
  }

  function New(steps: seq<real>): (b: seq<Bucket>)
    ensures BoundsOf(b) == Bounds(steps) && forall k :: 0 <= k < |b| ==> b[k].count == 0
  {
    var bounds := Bounds(steps);
    seq(|bounds|, k requires 0 <= k < |bounds| => Bucket(bounds[k], 0))
  }

  /** The last bucket whose bound is not above v. */
  function BucketFor(b: seq<Bucket>, v: real): (r: Option<nat>)
    ensures r.Some? ==> r.value < |b| && b[r.value].bound <= v
    ensures r.Some? ==> forall k :: r.value < k < |b| ==> v < b[k].bound
    ensures r.None? ==> forall k :: 0 <= k < |b| ==> v < b[k].bound
  {
    if b == [] then None
    else
      var n := |b| - 1;
      if b[n].bound <= v then Some(n) else BucketFor(b[..n], v)
  }

  function Add(b: seq<Bucket>, v: real): seq<Bucket> {
    match BucketFor(b, v)
    case None => b
    case Some(i) => b[i := b[i].(count := b[i].count + 1)]
  }

  function AddAll(b: seq<Bucket>, vs: seq<real>): seq<Bucket>
    decreases |vs|
  {
    if vs == [] then b else AddAll(Add(b, vs[0]), vs[1..])
  }

  // ---- Counting ----

  /** How many of vs lie from lo on and below hi, if there is a hi. */
  function CountIn(vs: seq<real>, lo: real, hi: Option<real>): nat {
    if vs == [] then 0
    else (if lo <= vs[0] && (hi.None? || vs[0] < hi.value) then 1 else 0) + CountIn(vs[1..], lo, hi)
  }

  function Next(b: seq<Bucket>, i: nat): Option<real>
    requires i < |b|
  {
    if i + 1 < |b| then Some(b[i + 1].bound) else None
  }

  function Total(b: seq<Bucket>): nat {
    if b == [] then 0 else b[0].count + Total(b[1..])
  }

  lemma {:induction false} CountsGrow(b: seq<Bucket>, vs: seq<real>, i: nat)
    requires StrictlyIncreasing(BoundsOf(b)) && i < |b|
    ensures BoundsOf(AddAll(b, vs)) == BoundsOf(b)
    ensures AddAll(b, vs)[i].count == b[i].count + CountIn(vs, b[i].bound, Next(b, i))
    decreases |vs|
  {
    if vs != [] {
      var b' := Add(b, vs[0]);
      assert BoundsOf(b') == BoundsOf(b);
      var bounds := BoundsOf(b);
      CountsGrow(b', vs[1..], i);
      if i + 1 < |b| {
        assert b[i].bound < b[i + 1].bound;
      }
      var r := BucketFor(b, vs[0]);
      if r.Some? && r.value < i {
        assert bounds[r.value + 1] <= bounds[i];
      } else if r.Some? && i < r.value {
        assert bounds[i + 1] <= bounds[r.value];
      }
    }
  }

  /** After any values, each bucket counts those from its bound on and below the next bound, the last one without limit. */
  lemma BucketsCount(steps: seq<real>, vs: seq<real>, i: nat)
    requires i < |New(steps)|
    ensures var b := AddAll(New(steps), vs);
            && |b| == |New(steps)| && BoundsOf(b) == Bounds(steps)
            && b[i].count == CountIn(vs, b[i].bound, Next(b, i))
  {
    BoundsStrict(steps);
    CountsGrow(New(steps), vs, i);
    var b := AddAll(New(steps), vs);
    assert forall k :: 0 <= k < |b| ==> BoundsOf(b)[k] == BoundsOf(New(steps))[k];
  }

  lemma {:induction false} TotalUpdate(b: seq<Bucket>, i: nat, x: Bucket)
    requires i < |b|
    ensures Total(b[i := x]) == Total(b) - b[i].count + x.count
    decreases |b|
  {
    if i == 0 {
      assert b[i := x][1..] == b[1..];
    } else {
      assert b[i := x][1..] == b[1..][i - 1 := x];
      TotalUpdate(b[1..], i - 1, x);
    }
  }

  lemma FirstIsLeast(b: seq<Bucket>, i: nat)
    requires i < |b| && StrictlyIncreasing(BoundsOf(b))
    ensures b[0].bound <= b[i].bound
  {
    assert BoundsOf(b)[0] == b[0].bound && BoundsOf(b)[i] == b[i].bound;
  }

  lemma TotalBump(b: seq<Bucket>, i: nat)
    requires i < |b|
    ensures Total(b[i := b[i].(count := b[i].count + 1)]) == Total(b) + 1
  {
    TotalUpdate(b, i, b[i].(count := b[i].count + 1));
  }

  lemma AddHits(b: seq<Bucket>, v: real, i: nat)
    requires BucketFor(b, v) == Some(i)
    ensures Total(Add(b, v)) == Total(b) + 1
  {
    TotalBump(b, i);
  }

  lemma AddMisses(b: seq<Bucket>, v: real)
    requires BucketFor(b, v) == None
    ensures Add(b, v) == b
  {
  }

  /** One more value counts once, unless it is below the smallest bound. */
  lemma TotalAdd(b: seq<Bucket>, v: real, r: Option<nat>)
    requires b != [] && StrictlyIncreasing(BoundsOf(b)) && r == BucketFor(b, v)
    ensures Total(Add(b, v)) == Total(b) + (if b[0].bound <= v then 1 else 0)
  {
    if r.Some? {
      AddHits(b, v, r.value);
      FirstIsLeast(b, r.value);
    } else {
      AddMisses(b, v);
    }
  }

  lemma {:induction false} TotalGrows(b: seq<Bucket>, vs: seq<real>)
    requires b != [] && StrictlyIncreasing(BoundsOf(b))
    ensures Total(AddAll(b, vs)) == Total(b) + CountIn(vs, b[0].bound, None)
    decreases |vs|
  {
    if vs != [] {
      var b' := Add(b, vs[0]);
      assert BoundsOf(b') == BoundsOf(b) && b'[0].bound == BoundsOf(b)[0];
      TotalAdd(b, vs[0], BucketFor(b, vs[0]));
      TotalGrows(b', vs[1..]);
    }
  }

  lemma {:induction false} TotalZero(b: seq<Bucket>)
    requires forall k :: 0 <= k < |b| ==> b[k].count == 0
    ensures Total(b) == 0
    decreases |b|
  {
    if b != [] {
      TotalZero(b[1..]);
    }
  }

  /** The counts add up to the number of values that are not below the smallest bound. */
  lemma TotalCounts(steps: seq<real>, vs: seq<real>)
    requires steps != []
    ensures New(steps) != [] && Total(AddAll(New(steps), vs)) == CountIn(vs, New(steps)[0].bound, None)
    ensures forall y :: y in steps ==> New(steps)[0].bound <= y
  {
    BoundsStrict(steps);
    assert steps[0] in Bounds(steps);
    TotalZero(New(steps));
    TotalGrows(New(steps), vs);
    forall y | y in steps ensures New(steps)[0].bound <= y {
      assert y in Bounds(steps);
    }
  }

  // ---- The order of steps and of values does not matter ----

  lemma {:induction false} SameElements(s: seq<real>, t: seq<real>)
    requires StrictlyIncreasing(s) && StrictlyIncreasing(t) && forall y :: y in s <==> y in t
    ensures s == t
    decreases |s|
  {
    if s == [] {
      assert forall k :: 0 <= k < |t| ==> t[k] in t;
    } else {
      assert s[0] in s && s[0] in t;
      assert t[0] in t && t[0] in s;
      assert s[0] == t[0];
      forall y ensures y in s[1..] <==> y in t[1..] {
        assert y in s[1..] <==> y in s && y != s[0];
        assert y in t[1..] <==> y in t && y != t[0];
      }
      SameElements(s[1..], t[1..]);
      assert s == [s[0]] + s[1..] && t == [t[0]] + t[1..];
    }
  }

  lemma {:induction false} CountRemove(vs: seq<real>, k: nat, lo: real, hi: Option<real>)
    requires k < |vs|
    ensures CountIn(vs, lo, hi) == CountIn([vs[k]] + vs[..k] + vs[k + 1..], lo, hi)
    decreases |vs|
  {
    var rest := vs[..k] + vs[k + 1..];
    assert ([vs[k]] + vs[..k] + vs[k + 1..])[1..] == rest;
    if k == 0 {
      assert rest == vs[1..];
    } else {
      var k' := k - 1;
      CountRemove(vs[1..], k', lo, hi);
      assert rest[0] == vs[0];
      var moved := [vs[1..][k']] + vs[1..][..k'] + vs[1..][k' + 1..];
      assert moved[1..] == vs[1..][..k'] + vs[1..][k' + 1..];
      assert rest[1..] == vs[1..][..k'] + vs[1..][k' + 1..];
    }
  }

  lemma MultisetWithout(ws: seq<real>, k: nat)
    requires k < |ws|
    ensures multiset(ws) == multiset(ws[..k] + ws[k + 1..]) + multiset{ws[k]}
  {
    assert ws == ws[..k] + [ws[k]] + ws[k + 1..];
  }

  lemma Cancel(a: multiset<real>, b: multiset<real>, x: real)
    requires a + multiset{x} == b + multiset{x}
    ensures a == b
  {
    assert a == a + multiset{x} - multiset{x};
    assert b == b + multiset{x} - multiset{x};
  }

  lemma TailsMatch(vs: seq<real>, ws: seq<real>, k: nat)
    requires vs != [] && k < |ws| && ws[k] == vs[0] && multiset(vs) == multiset(ws)
    ensures multiset(vs[1..]) == multiset(ws[..k] + ws[k + 1..])
  {
    assert vs == [vs[0]] + vs[1..];
    MultisetWithout(ws, k);
    Cancel(multiset(vs[1..]), multiset(ws[..k] + ws[k + 1..]), vs[0]);
  }

  lemma {:induction false} CountOfMultiset(vs: seq<real>, ws: seq<real>, lo: real, hi: Option<real>)
    requires multiset(vs) == multiset(ws)
    ensures CountIn(vs, lo, hi) == CountIn(ws, lo, hi)
    decreases |vs|
  {
    if vs == [] {
      assert |multiset(ws)| == 0;
    } else {
      var k := IndexOf(vs, ws);
      var rest := ws[..k] + ws[k + 1..];
      TailsMatch(vs, ws, k);
      CountOfMultiset(vs[1..], rest, lo, hi);
      CountRemove(ws, k, lo, hi);
      assert [ws[k]] + ws[..k] + ws[k + 1..] == [ws[k]] + rest;
      assert ([ws[k]] + rest)[1..] == rest;
    }
  }

  lemma IndexOf(vs: seq<real>, ws: seq<real>) returns (k: nat)
    requires vs != [] && multiset(vs) == multiset(ws)
    ensures k < |ws| && ws[k] == vs[0]
  {
    assert vs[0] in multiset(vs);
    assert vs[0] in ws;
    k :| 0 <= k < |ws| && ws[k] == vs[0];
  }

  /** Steps with the same bounds, in any order and with any repetition, build the same histogram, whatever the order of the values. */
  lemma OrderIrrelevant(steps: seq<real>, steps': seq<real>, vs: seq<real>, ws: seq<real>)
    requires forall y :: y in steps <==> y in steps'
    requires multiset(vs) == multiset(ws)
    ensures New(steps) == New(steps') && StrictlyIncreasing(BoundsOf(New(steps)))
    ensures AddAll(New(steps), vs) == AddAll(New(steps'), ws)
  {
    BoundsStrict(steps);
    BoundsStrict(steps');
    SameElements(Bounds(steps), Bounds(steps'));
    assert New(steps) == New(steps');
    var b := New(steps);
    var x, y := AddAll(b, vs), AddAll(b, ws);
    SameLength(b, vs);
    SameLength(b, ws);
    forall i | 0 <= i < |b| ensures x[i] == y[i] {
      CountsGrow(b, vs, i);
      CountsGrow(b, ws, i);
      CountOfMultiset(vs, ws, b[i].bound, Next(b, i));
      assert BoundsOf(x)[i] == BoundsOf(b)[i] == BoundsOf(y)[i];
    }
  }

  lemma {:induction false} SameLength(b: seq<Bucket>, vs: seq<real>)
    ensures |AddAll(b, vs)| == |b|
    decreases |vs|
  {
    if vs != [] {
      SameLength(Add(b, vs[0]), vs[1..]);
    }
  }

  // ---- The class ----

  class Meter {
    var buckets: seq<Bucket>

    ghost predicate Valid()
      reads this
    {
      StrictlyIncreasing(BoundsOf(buckets))
    }

    constructor (steps: seq<real>)
      ensures Valid() && buckets == New(steps)
    {
      buckets := New(steps);
      BoundsStrict(steps);
    }

    /** Binary search for the bucket that owns the value. */
    method FindBucket(value: real) returns (r: Option<nat>)
      requires Valid()
      ensures r == BucketFor(buckets, value)
    {
      var lo, hi := 0, |buckets|;
      while lo < hi
        invariant 0 <= lo <= hi <= |buckets|
        invariant forall k :: 0 <= k < lo ==> buckets[k].bound < value
        invariant forall k :: hi <= k < |buckets| ==> value < buckets[k].bound
      {
        var mid := lo + (hi - lo) / 2;
        assert forall k :: 0 <= k < |buckets| ==> BoundsOf(buckets)[k] == buckets[k].bound;
        if buckets[mid].bound == value {
          assert BucketFor(buckets, value) == Some(mid);
          return Some(mid);
        } else if buckets[mid].bound < value {
          lo := mid + 1;
        } else {
          hi := mid;
        }
      }
      r := if lo >= 1 then Some(lo - 1) else None;
      assert lo >= 1 ==> buckets[lo - 1].bound < value;
      assert BucketFor(buckets, value).Some? ==> buckets[BucketFor(buckets, value).value].bound <= value;
    }

    method AddValue(value: real)
      requires Valid()
      modifies this
      ensures Valid() && buckets == Add(old(buckets), value)
    {
      var index := FindBucket(value);
      if index.Some? {
        var i := index.value;
        buckets := buckets[i := buckets[i].(count := buckets[i].count + 1)];
        assert BoundsOf(buckets) == BoundsOf(old(buckets));
      }
    }
  }
}
