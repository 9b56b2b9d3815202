/**
 Forests given by a parent table, and their postorder traversal.

 Node i is the i-th span of a segment and ps[i] is the id of its parent, or -1 when it is a root.
 A parent is always created before its children, so ps[i] < i.
 */
module Forest {

  ghost predicate Wf(ps: seq<int>) {
    forall i :: 0 <= i < |ps| ==> -1 <= ps[i] < i
  }

  /** p is reached from c by following at least one parent link. */
  ghost predicate Ancestor(ps: seq<int>, p: int, c: int)
    requires Wf(ps)
    decreases c
  {
    0 <= c < |ps| && ps[c] >= 0 && (ps[c] == p || Ancestor(ps, p, ps[c]))
  }

  /** The postorder of the subtrees whose roots are the children of p with an id of at least lo. */
  function Below(ps: seq<int>, p: int, lo: nat): seq<int>
    decreases |ps| - lo
  {
    if lo >= |ps| then []
    else if ps[lo] == p then Below(ps, lo, lo + 1) + [lo] + Below(ps, p, lo + 1)
    else Below(ps, p, lo + 1)
  }

  /** The postorder traversal of the whole forest, siblings in increasing id. */
  function Postorder(ps: seq<int>): seq<int> {
    Below(ps, -1, 0)
  }

  /** s with n put in front of every occurrence of x. */
  function InsertBefore(s: seq<int>, x: int, n: int): seq<int> {
    if s == [] then []
    else (if s[0] == x then [n] else []) + [s[0]] + InsertBefore(s[1..], x, n)
  }

  lemma {:induction false} InsertBeforeConcat(s: seq<int>, t: seq<int>, x: int, n: int)
    ensures InsertBefore(s + t, x, n) == InsertBefore(s, x, n) + InsertBefore(t, x, n)
  {
    if s == [] {
      assert s + t == t;
    } else {
      var head := (if s[0] == x then [n] else []) + [s[0]];
      calc {
        InsertBefore(s + t, x, n);
        { assert (s + t)[0] == s[0] && (s + t)[1..] == s[1..] + t; }
        head + InsertBefore(s[1..] + t, x, n);
        { InsertBeforeConcat(s[1..], t, x, n); }
        head + (InsertBefore(s[1..], x, n) + InsertBefore(t, x, n));
        (head + InsertBefore(s[1..], x, n)) + InsertBefore(t, x, n);
      }
    }
  }

  lemma {:induction false} InsertBeforeAbsent(s: seq<int>, x: int, n: int)
    requires x !in s
    ensures InsertBefore(s, x, n) == s
  {
    if s != [] {
      InsertBeforeAbsent(s[1..], x, n);
      assert s == [s[0]] + s[1..];
    }
  }

  lemma {:induction false} BelowRange(ps: seq<int>, p: int, lo: nat)
    ensures forall x :: x in Below(ps, p, lo) ==> lo <= x < |ps|
    decreases |ps| - lo
  {
    if lo < |ps| {
      BelowRange(ps, lo, lo + 1);
      BelowRange(ps, p, lo + 1);
    }
  }

  lemma {:induction false} InsertBeforeAround(a: seq<int>, lo: int, c: seq<int>, x: int, n: int)
    ensures InsertBefore(a + [lo] + c, x, n) ==
            InsertBefore(a, x, n) + (if lo == x then [n, lo] else [lo]) + InsertBefore(c, x, n)
  {
    InsertBeforeConcat(a + [lo], c, x, n);
    InsertBeforeConcat(a, [lo], x, n);
    assert InsertBefore([lo], x, n) == if lo == x then [n, lo] else [lo];
  }

  /** The parts of a traversal at a child lo of p, once the new node n is below x. */
  lemma {:induction false} AppendAround(a: seq<int>, lo: int, c: seq<int>, a': seq<int>, c': seq<int>, x: int, p: int, n: int)
    requires lo !in a && lo !in c && p !in a && p != lo
    requires a' == if x == lo then a + [n] else InsertBefore(a, x, n)
    requires c' == if x == p then c + [n] else InsertBefore(c, x, n)
    ensures a' + [lo] + c' == if x == p then a + [lo] + c + [n] else InsertBefore(a + [lo] + c, x, n)
  {
    if x == lo {
      AppendAt(a, lo, c, n);
      InsertBeforeAbsent(c, x, n);
    } else if x == p {
      InsertBeforeAbsent(a, x, n);
      assert a + [lo] + (c + [n]) == a + [lo] + c + [n];
    } else {
      InsertBeforeAround(a, lo, c, x, n);
    }
  }

  lemma {:induction false} AppendAt(a: seq<int>, lo: int, c: seq<int>, n: int)
    requires lo !in a && lo !in c
    ensures a + [n] + [lo] + c == InsertBefore(a + [lo] + c, lo, n)
  {
    InsertBeforeAround(a, lo, c, lo, n);
    InsertBeforeAbsent(a, lo, n);
    InsertBeforeAbsent(c, lo, n);
    assert a + [n] + [lo] == a + [n, lo];
  }

  lemma {:induction false} BelowLast(ps: seq<int>, x: int, p: int)
    requires p < |ps| && forall i :: 0 <= i < |ps| ==> ps[i] < i
    ensures Below(ps + [x], p, |ps|) == if x == p then [|ps|] else []
  {
    assert Below(ps + [x], p, |ps| + 1) == [];
    assert Below(ps + [x], |ps|, |ps| + 1) == [];
  }

  /** How a traversal changes when a new node |ps| is created below x. */
  lemma {:induction false} BelowAppend(ps: seq<int>, x: int, p: int, lo: nat)
    requires lo <= |ps| && p < lo
    requires forall i :: 0 <= i < |ps| ==> ps[i] < i
    ensures Below(ps + [x], p, lo) ==
            if x == p then Below(ps, p, lo) + [|ps|] else InsertBefore(Below(ps, p, lo), x, |ps|)
    decreases |ps| - lo
  {
    if lo == |ps| {
      BelowLast(ps, x, p);
    } else {
      BelowAppend(ps, x, p, lo + 1);
      if ps[lo] == p {
        BelowAppend(ps, x, lo, lo + 1);
        BelowRange(ps, lo, lo + 1);
        BelowRange(ps, p, lo + 1);
        AppendAround(Below(ps, lo, lo + 1), lo, Below(ps, p, lo + 1),
                     Below(ps + [x], lo, lo + 1), Below(ps + [x], p, lo + 1), x, p, |ps|);
      }
    }
  }

  /** Creating a node below x puts it right in front of x in the postorder, at the end for a root. */
  lemma {:induction false} PostorderAppend(ps: seq<int>, x: int, before: seq<int>, after: seq<int>)
    requires Wf(ps)
    requires Postorder(ps) == before + after
    requires if x == -1 then after == [] else after != [] && after[0] == x && x !in before && x !in after[1..]
    ensures Postorder(ps + [x]) == before + [|ps|] + after
  {
    BelowAppend(ps, x, -1, 0);
    if x != -1 {
      InsertBeforeConcat(before, after, x, |ps|);
      InsertBeforeAbsent(before, x, |ps|);
      InsertBeforeAbsent(after[1..], x, |ps|);
    }
  }

  lemma {:induction false} AncestorRange(ps: seq<int>, p: int, c: int)
    requires Wf(ps) && Ancestor(ps, p, c)
    ensures 0 <= p < c < |ps|
    decreases c
  {
    if ps[c] != p {
      AncestorRange(ps, p, ps[c]);
    }
  }

  lemma {:induction false} AncestorAppend(ps: seq<int>, x: int, p: int, c: int)
    requires Wf(ps) && Wf(ps + [x]) && c < |ps|
    ensures Ancestor(ps + [x], p, c) == Ancestor(ps, p, c)
    decreases c
  {
    if 0 <= c && ps[c] >= 0 {
      AncestorAppend(ps, x, p, ps[c]);
    }
  }

  /** Of two nodes in s, the later one is an ancestor of the earlier one exactly when its id is smaller. */
  ghost predicate AncestorsFollow(ps: seq<int>, s: seq<int>)
    requires Wf(ps)
  {
    forall i, j :: 0 <= i < j < |s| ==>
      && (Ancestor(ps, s[j], s[i]) <==> s[j] < s[i])
      && !Ancestor(ps, s[i], s[j])
  }

  /** s lists each of 0..n-1 exactly once. */
  ghost predicate Lists(s: seq<int>, n: nat) {
    && (forall i, j :: 0 <= i < j < |s| ==> s[i] != s[j])
    && (forall x :: x in s <==> 0 <= x < n)
  }

  lemma NoNodes(ps: seq<int>, order: seq<int>)
    requires |ps| == 0 && |order| == 0
    ensures Wf(ps) && Postorder(ps) == order && Lists(order, 0) && AncestorsFollow(ps, order)
  {
  }

  lemma ListsInsert(before: seq<int>, after: seq<int>, n: nat)
    requires Lists(before + after, n)
    ensures Lists(before + [n] + after, n + 1)
  {
    var s, t, m := before + after, before + [n] + after, |before|;
    forall y ensures y in t <==> 0 <= y < n + 1 {
      assert y in t <==> y in s || y == n;
    }
    assert forall k :: 0 <= k < m ==> t[k] == s[k] && s[k] in s;
    assert forall k :: m < k < |t| ==> t[k] == s[k - 1] && s[k - 1] in s;
  }

  /** A new node below x is a descendant of x and of the ancestors of x, and an ancestor of no one. */
  lemma {:induction false} NewNodeAncestors(ps: seq<int>, x: int, y: int)
    requires Wf(ps) && -1 <= x < |ps| && y < |ps|
    ensures Wf(ps + [x]) && !Ancestor(ps + [x], |ps|, y)
    ensures Ancestor(ps + [x], y, |ps|) <==> x >= 0 && (y == x || Ancestor(ps, y, x))
  {
    AncestorAppend(ps, x, |ps|, y);
    if Ancestor(ps, |ps|, y) {
      AncestorRange(ps, |ps|, y);
    }
    AncestorAppend(ps, x, y, x);
  }

  /** Opening a node below the top of the open nodes keeps the order of ancestors. */
  lemma {:induction false} AncestorsFollowAppend(ps: seq<int>, x: int, before: seq<int>, after: seq<int>)
    requires Wf(ps) && -1 <= x < |ps|
    requires Lists(before + after, |ps|) && AncestorsFollow(ps, before + after)
    requires if after == [] then x == -1 else x == after[0]
    requires forall k :: 0 < k < |after| ==> after[k] < x
    ensures Wf(ps + [x]) && Lists(before + [|ps|] + after, |ps| + 1)
    ensures AncestorsFollow(ps + [x], before + [|ps|] + after)
  {
    var n, qs := |ps|, ps + [x];
    var s, t := before + after, before + [n] + after;
    var m := |before|;
    ListsInsert(before, after, n);
    forall i, j | 0 <= i < j < |t|
      ensures (Ancestor(qs, t[j], t[i]) <==> t[j] < t[i]) && !Ancestor(qs, t[i], t[j])
    {
      if i == m {
        assert t[j] == s[j - 1] == after[j - m - 1] && s[j - 1] in s;
        NewNodeAncestors(ps, x, t[j]);
        assert s[m] == x;
      } else if j == m {
        assert t[i] == s[i] && s[i] in s;
        NewNodeAncestors(ps, x, t[i]);
        assert x >= 0 ==> s[m] == x;
      } else {
        var a, b := if i < m then i else i - 1, if j < m then j else j - 1;
        assert t[i] == s[a] && t[j] == s[b] && s[a] in s && s[b] in s;
        AncestorAppend(ps, x, t[j], t[i]);
        AncestorAppend(ps, x, t[i], t[j]);
      }
    }
  }

  /** The subtree of r is a contiguous block of the traversal that ends in r. */
  lemma {:induction false} SubtreeBlock(ps: seq<int>, p: int, lo: nat, r: int)
    returns (left: seq<int>, right: seq<int>)
    requires r in Below(ps, p, lo)
    ensures r >= 0 && Below(ps, p, lo) == left + (Below(ps, r, r + 1) + [r]) + right
    decreases |ps| - lo
  {
    BelowRange(ps, p, lo);
    var rest := Below(ps, p, lo + 1);
    if ps[lo] != p {
      left, right := SubtreeBlock(ps, p, lo + 1, r);
    } else {
      var sub := Below(ps, lo, lo + 1);
      if r in sub {
        var l, t := SubtreeBlock(ps, lo, lo + 1, r);
        left, right := l, t + [lo] + rest;
      } else if r == lo {
        left, right := [], rest;
      } else {
        var l, t := SubtreeBlock(ps, p, lo + 1, r);
        left, right := sub + [lo] + l, t;
      }
    }
  }

  /** The nodes listed below p are its descendants. */
  lemma {:induction false} BelowSound(ps: seq<int>, p: nat, lo: nat, x: int)
    requires Wf(ps) && p < lo && x in Below(ps, p, lo)
    ensures Ancestor(ps, p, x)
    decreases |ps| - lo
  {
    if ps[lo] == p && x in Below(ps, lo, lo + 1) {
      BelowSound(ps, lo, lo + 1, x);
      AncestorTrans(ps, p, lo, x);
    } else if x != lo || ps[lo] != p {
      BelowSound(ps, p, lo + 1, x);
    }
  }

  lemma {:induction false} AncestorTrans(ps: seq<int>, a: int, b: int, c: int)
    requires Wf(ps) && Ancestor(ps, a, b) && Ancestor(ps, b, c)
    ensures Ancestor(ps, a, c)
    decreases c
  {
    if ps[c] != b {
      AncestorTrans(ps, a, b, ps[c]);
    }
  }

  /** Every child of p from lo on, and everything below such a child, is listed. */
  lemma {:induction false} BelowComplete(ps: seq<int>, p: int, lo: nat, c: nat, x: int)
    requires Wf(ps) && p < lo <= c < |ps| && ps[c] == p
    requires x == c || Ancestor(ps, c, x)
    ensures x in Below(ps, p, lo)
    decreases |ps| - lo, x
  {
    if lo < c {
      BelowComplete(ps, p, lo + 1, c, x);
    } else if x != c {
      var d := ChildToward(ps, c, x);
      BelowComplete(ps, c, c + 1, d, x);
    }
  }

  /** The child of a on the way down to its descendant x. */
  lemma {:induction false} ChildToward(ps: seq<int>, a: int, x: int) returns (d: int)
    requires Wf(ps) && Ancestor(ps, a, x)
    ensures 0 <= a < d < |ps| && ps[d] == a && (d == x || Ancestor(ps, d, x))
    decreases x
  {
    if ps[x] == a {
      d := x;
    } else {
      d := ChildToward(ps, a, ps[x]);
    }
  }

  /** Every node is in the traversal, and its whole subtree, and nothing else, stands right in front of it. */
  lemma {:induction false} SubtreeIsBlock(ps: seq<int>, r: nat) returns (left: seq<int>, right: seq<int>)
    requires Wf(ps) && r < |ps|
    ensures Postorder(ps) == left + (Below(ps, r, r + 1) + [r]) + right
    ensures forall x :: x in Below(ps, r, r + 1) <==> Ancestor(ps, r, x)
  {
    InPostorder(ps, r);
    left, right := SubtreeBlock(ps, -1, 0, r);
    forall x ensures x in Below(ps, r, r + 1) <==> Ancestor(ps, r, x) {
      if x in Below(ps, r, r + 1) {
        BelowSound(ps, r, r + 1, x);
      }
      if Ancestor(ps, r, x) {
        var d := ChildToward(ps, r, x);
        BelowComplete(ps, r, r + 1, d, x);
      }
    }
  }

  /** In a traversal that lists every node once, the descendants of r are exactly the block in front of r. */
  lemma {:induction false} DescendantsInFront(ps: seq<int>, r: nat) returns (i: nat, j: nat)
    requires Wf(ps) && r < |ps| && Lists(Postorder(ps), |ps|)
    ensures i <= j < |Postorder(ps)| && Postorder(ps)[j] == r
    ensures forall k :: 0 <= k < |Postorder(ps)| ==> (i <= k < j <==> Ancestor(ps, r, Postorder(ps)[k]))
  {
    var left, right := SubtreeIsBlock(ps, r);
    var ids, sub := Postorder(ps), Below(ps, r, r + 1);
    i, j := |left|, |left| + |sub|;
    assert forall m :: 0 <= m < |sub| ==> ids[i + m] == sub[m];
    forall k | 0 <= k < |ids| ensures i <= k < j <==> Ancestor(ps, r, ids[k]) {
      if i <= k < j {
        assert ids[k] == sub[k - i];
      }
    }
  }

  lemma {:induction false} InPostorder(ps: seq<int>, r: nat)
    requires Wf(ps) && r < |ps|
    ensures r in Postorder(ps)
  {
    var root := RootOf(ps, r);
    BelowComplete(ps, -1, 0, root, r);
  }

  lemma {:induction false} RootOf(ps: seq<int>, r: nat) returns (root: nat)
    requires Wf(ps) && r < |ps|
    ensures root < |ps| && ps[root] == -1 && (root == r || Ancestor(ps, root, r))
    decreases r
  {
    if ps[r] == -1 {
      root := r;
    } else {
      root := RootOf(ps, ps[r]);
    }
  }
}
