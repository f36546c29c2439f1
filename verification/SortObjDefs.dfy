/** sort_obj_defs() of h2def.py: moving every class behind its parent, in place. */
module SortObjDefs {

  datatype ObjDef = ObjDef(klass: string, parent: string)

  // ---- The loop as a state machine -------------------------------------------------------

  /** The list and the position that the while loop works at. */
  datatype State = State(defs: seq<ObjDef>, pos: nat)

  /** The first place at or behind from where the class named parent is defined, or the end. */
  function FindClass(defs: seq<ObjDef>, parent: string, from: nat): (i: nat)
    requires from <= |defs|
    ensures from <= i <= |defs|
    ensures i < |defs| ==> defs[i].klass == parent
    ensures forall j :: from <= j < i ==> defs[j].klass != parent
    decreases |defs| - from
  {
    if from == |defs| || defs[from].klass == parent then from else FindClass(defs, parent, from + 1)
  }

  /** The element at pos is inserted behind i, and then deleted at pos. */
  function MoveBehind(defs: seq<ObjDef>, pos: nat, i: nat): (moved: seq<ObjDef>)
    requires pos < i < |defs|
    ensures |moved| == |defs|
  {
    defs[..pos] + (defs[pos + 1..i + 1] + [defs[pos]] + defs[i + 1..])
  }

  /** One round of the while loop. */
  function Next(s: State): (t: State)
    ensures |t.defs| == |s.defs|
  {
    if s.pos >= |s.defs| then s
    else
      var i := FindClass(s.defs, s.defs[s.pos].parent, s.pos + 1);
      if i < |s.defs| then s.(defs := MoveBehind(s.defs, s.pos, i)) else s.(pos := s.pos + 1)
  }

  function Iterate(s: State, n: nat): State
    decreases n
  {
    if n == 0 then s else Iterate(Next(s), n - 1)
  }

  /** The loop ends on this list. */
  ghost predicate Ends(defs: seq<ObjDef>) {
    exists n: nat :: Iterate(State(defs, 0), n).pos >= |defs|
  }

  /** No class stands before a place where its parent is defined. */
  ghost predicate Ordered(defs: seq<ObjDef>) {
    OrderedTo(defs, |defs|)
  }

  ghost predicate OrderedTo(defs: seq<ObjDef>, pos: nat) {
    forall q :: 0 <= q < pos && q < |defs| ==> NoParentBehind(defs, q)
  }

  ghost predicate NoParentBehind(defs: seq<ObjDef>, q: nat)
    requires q < |defs|
  {
    forall i :: q < i < |defs| ==> defs[i].klass != defs[q].parent
  }

  // ---- Inheritance cycles ----------------------------------------------------------------

  /** e, at another place of the list than d, defines the parent of d. */
  ghost predicate Links(defs: seq<ObjDef>, d: ObjDef, e: ObjDef) {
    d in defs && e in defs && e.klass == d.parent && (d != e || multiset(defs)[d] > 1)
  }

  ghost predicate IsChain(defs: seq<ObjDef>, c: seq<ObjDef>) {
    c != [] && c[0] in defs && forall i :: 0 <= i < |c| - 1 ==> Links(defs, c[i], c[i + 1])
  }

  /** Some classes inherit from each other in a circle. */
  ghost predicate Cyclic(defs: seq<ObjDef>) {
    exists c :: IsChain(defs, c) && Links(defs, c[|c| - 1], c[0])
  }

  /** rank puts every parent below its children. */
  ghost predicate Ranked(defs: seq<ObjDef>, rank: ObjDef -> nat) {
    && (forall d :: d in defs ==> rank(d) <= |defs|)
    && (forall d, e :: Links(defs, d, e) ==> rank(e) < rank(d))
  }

  lemma {:induction false} LinksOfPermutation(a: seq<ObjDef>, b: seq<ObjDef>)
    requires multiset(a) == multiset(b)
    ensures |a| == |b|
    ensures forall d :: d in a <==> d in b
    ensures forall d, e :: Links(a, d, e) <==> Links(b, d, e)
  {
    assert |a| == |multiset(a)| && |b| == |multiset(b)|;
    forall d
      ensures d in a <==> d in b
    {
      assert d in a <==> d in multiset(a);
      assert d in b <==> d in multiset(b);
    }
  }

  // ---- The measure -----------------------------------------------------------------------

  function Pow(k: nat, n: nat): nat {
    if n == 0 then 1 else k * Pow(k, n - 1)
  }

  lemma {:induction false} PowPositive(k: nat, n: nat)
    requires k > 0
    ensures Pow(k, n) > 0
  {
    if n > 0 {
      PowPositive(k, n - 1);
    }
  }

  lemma {:induction false} PowMonotone(k: nat, m: nat, n: nat)
    requires k > 0 && m <= n
    ensures Pow(k, m) <= Pow(k, n)
  {
    if m < n {
      PowMonotone(k, m, n - 1);
      AtLeastOnce(k, Pow(k, n - 1));
    }
  }

  lemma {:induction false} AtLeastOnce(k: nat, p: nat)
    requires k > 0
    ensures p <= k * p
  {
  }

  /** How much a class counts that stands before its parent: the higher up in the hierarchy, the more. */
  datatype Weights = Weights(size: nat, rank: ObjDef -> nat) {
    ghost function Of(d: ObjDef): nat {
      Pow(size + 1, if rank(d) <= size then size - rank(d) else 0)
    }
  }

  /** The weight of x for each place in s that defines its parent. */
  ghost function Below(w: Weights, x: ObjDef, s: seq<ObjDef>): nat {
    if s == [] then 0 else (if s[0].klass == x.parent then w.Of(x) else 0) + Below(w, x, s[1..])
  }

  /** The weights of those in s whose parent is x. */
  ghost function Children(w: Weights, x: ObjDef, s: seq<ObjDef>): nat {
    if s == [] then 0 else (if x.klass == s[0].parent then w.Of(s[0]) else 0) + Children(w, x, s[1..])
  }

  /** The weighted number of pairs in the wrong order. */
  ghost function Cost(w: Weights, s: seq<ObjDef>): nat {
    if s == [] then 0 else Below(w, s[0], s[1..]) + Cost(w, s[1..])
  }

  lemma {:induction false} BelowConcat(w: Weights, x: ObjDef, a: seq<ObjDef>, b: seq<ObjDef>)
    ensures Below(w, x, a + b) == Below(w, x, a) + Below(w, x, b)
  {
    if a == [] {
      assert a + b == b;
    } else {
      assert (a + b)[1..] == a[1..] + b;
      BelowConcat(w, x, a[1..], b);
    }
  }

  /** Moving x behind m changes nothing for an element that stands before both. */
  lemma {:induction false} BelowMoved(w: Weights, y: ObjDef, x: ObjDef, m: seq<ObjDef>, r: seq<ObjDef>)
    ensures Below(w, y, [x] + m + r) == Below(w, y, m + [x] + r)
  {
    BelowConcat(w, y, [x] + m, r);
    BelowConcat(w, y, [x], m);
    BelowConcat(w, y, m + [x], r);
    BelowConcat(w, y, m, [x]);
  }

  lemma {:induction false} BelowHead(w: Weights, y: ObjDef, x: ObjDef, s: seq<ObjDef>)
    ensures Below(w, y, [x] + s) == (if x.klass == y.parent then w.Of(y) else 0) + Below(w, y, s)
  {
    assert ([x] + s)[1..] == s;
  }

  lemma {:induction false} CostHead(w: Weights, x: ObjDef, s: seq<ObjDef>)
    ensures Cost(w, [x] + s) == Below(w, x, s) + Cost(w, s)
  {
    assert ([x] + s)[1..] == s;
  }

  /** Swapping neighbours only concerns the two of them. */
  lemma {:induction false} CostSwapped(w: Weights, x: ObjDef, y: ObjDef, s: seq<ObjDef>)
    ensures Cost(w, [y] + ([x] + s)) + (if y.klass == x.parent then w.Of(x) else 0)
         == Cost(w, [x] + ([y] + s)) + (if x.klass == y.parent then w.Of(y) else 0)
  {
    CostHead(w, y, [x] + s);
    CostHead(w, x, s);
    BelowHead(w, y, x, s);
    CostHead(w, x, [y] + s);
    CostHead(w, y, s);
    BelowHead(w, x, y, s);
  }

  lemma {:induction false} CostMovedBehindHead(w: Weights, y: ObjDef, x: ObjDef, n: seq<ObjDef>, r: seq<ObjDef>)
    ensures Cost(w, [y] + (n + [x] + r)) - Cost(w, n + [x] + r) == Cost(w, [y] + ([x] + n + r)) - Cost(w, [x] + n + r)
  {
    CostHead(w, y, n + [x] + r);
    CostHead(w, y, [x] + n + r);
    BelowMoved(w, y, x, n, r);
  }

  /** Moving x behind m mends the pairs of x and its parents in m, and spoils those of its children and x. */
  lemma {:induction false} CostMoved(w: Weights, x: ObjDef, m: seq<ObjDef>, r: seq<ObjDef>)
    ensures Cost(w, m + [x] + r) + Below(w, x, m) == Cost(w, [x] + m + r) + Children(w, x, m)
  {
    if m == [] {
      assert [] + [x] + r == [x] + [] + r;
    } else {
      var y, n := m[0], m[1..];
      CostMoved(w, x, n, r);
      CostMovedBehindHead(w, y, x, n, r);
      CostSwapped(w, x, y, n + r);
      Regrouped(x, m, r);
    }
  }

  lemma {:induction false} Regrouped(x: ObjDef, m: seq<ObjDef>, r: seq<ObjDef>)
    requires m != []
    ensures m + [x] + r == [m[0]] + (m[1..] + [x] + r)
    ensures [x] + m[1..] + r == [x] + (m[1..] + r)
    ensures [x] + m + r == [x] + ([m[0]] + (m[1..] + r))
  {
  }

  lemma {:induction false} CostBehind(w: Weights, a: seq<ObjDef>, x: ObjDef, m: seq<ObjDef>, r: seq<ObjDef>)
    requires Cost(w, m + [x] + r) < Cost(w, [x] + m + r)
    ensures Cost(w, a + (m + [x] + r)) < Cost(w, a + ([x] + m + r))
  {
    var s, t := [x] + m + r, m + [x] + r;
    if a == [] {
      assert a + s == s && a + t == t;
    } else {
      CostBehind(w, a[1..], x, m, r);
      assert (a + s)[1..] == a[1..] + s && (a + t)[1..] == a[1..] + t;
      BelowConcat(w, a[0], a[1..], s);
      BelowConcat(w, a[0], a[1..], t);
      BelowMoved(w, a[0], x, m, r);
    }
  }

  lemma {:induction false} BelowAtLeast(w: Weights, x: ObjDef, m: seq<ObjDef>, j: nat)
    requires j < |m| && m[j].klass == x.parent
    ensures Below(w, x, m) >= w.Of(x)
  {
    if j > 0 {
      BelowAtLeast(w, x, m[1..], j - 1);
    }
  }

  lemma {:induction false} ChildrenAtMost(w: Weights, x: ObjDef, m: seq<ObjDef>, p: nat)
    requires forall y :: y in m && y.parent == x.klass ==> w.Of(y) <= p
    ensures Children(w, x, m) <= |m| * p
  {
    if m != [] {
      assert forall y :: y in m[1..] ==> y in m;
      ChildrenAtMost(w, x, m[1..], p);
      MulStep(|m[1..]|, p);
    }
  }

  lemma {:induction false} MulStep(n: nat, p: nat)
    ensures (n + 1) * p == n * p + p
  {
  }

  lemma {:induction false} MulMonotone(m: nat, n: nat, p: nat)
    requires m <= n
    ensures m * p <= n * p
  {
  }

  /** The weight of a class is more than size times the weight of any child. */
  lemma {:induction false} WeightsSpread(w: Weights, x: ObjDef) returns (p: nat)
    requires w.rank(x) <= w.size
    ensures w.size * p < w.Of(x)
    ensures forall y :: w.rank(x) < w.rank(y) <= w.size ==> w.Of(y) <= p
  {
    var k, n := w.size + 1, w.size - w.rank(x);
    if n == 0 {
      p := 0;
    } else {
      p := Pow(k, n - 1);
      PowPositive(k, n - 1);
      MulStep(w.size, p);
      forall y | w.rank(x) < w.rank(y) <= w.size
        ensures w.Of(y) <= p
      {
        PowMonotone(k, w.size - w.rank(y), n - 1);
      }
    }
  }

  /** A class moved behind its parent counts more than all the children it is moved past. */
  lemma {:induction false} MoveMends(w: Weights, x: ObjDef, m: seq<ObjDef>, j: nat)
    requires j < |m| <= w.size && m[j].klass == x.parent && w.rank(x) <= w.size
    requires forall y :: y in m && y.parent == x.klass ==> w.rank(x) < w.rank(y) <= w.size
    ensures Children(w, x, m) < Below(w, x, m)
  {
    BelowAtLeast(w, x, m, j);
    var p := WeightsSpread(w, x);
    ChildrenAtMost(w, x, m, p);
    MulMonotone(|m|, w.size, p);
  }

  lemma {:induction false} TwoPlaces(defs: seq<ObjDef>, i: nat, j: nat)
    requires i < j < |defs|
    ensures defs[i] == defs[j] ==> multiset(defs)[defs[i]] > 1
  {
    assert defs == defs[..j] + [defs[j]] + defs[j + 1..];
    assert defs[i] in multiset(defs[..j]);
  }

  lemma {:induction false} ChildrenRankHigher(defs: seq<ObjDef>, pos: nat, i: nat, rank: ObjDef -> nat)
    requires pos < i < |defs| && Ranked(defs, rank)
    ensures forall y :: y in defs[pos + 1..i + 1] && y.parent == defs[pos].klass ==> rank(defs[pos]) < rank(y) <= |defs|
  {
    forall y | y in defs[pos + 1..i + 1] && y.parent == defs[pos].klass
      ensures rank(defs[pos]) < rank(y) <= |defs|
    {
      var j :| pos + 1 <= j < i + 1 && defs[j] == y;
      TwoPlaces(defs, pos, j);
      assert Links(defs, y, defs[pos]);
    }
  }

  lemma {:induction false} MoveCost(defs: seq<ObjDef>, pos: nat, i: nat, rank: ObjDef -> nat)
    requires pos < i < |defs| && defs[i].klass == defs[pos].parent && Ranked(defs, rank)
    ensures Cost(Weights(|defs|, rank), MoveBehind(defs, pos, i)) < Cost(Weights(|defs|, rank), defs)
  {
    ChildrenRankHigher(defs, pos, i, rank);
    assert defs == defs[..pos] + ([defs[pos]] + defs[pos + 1..i + 1] + defs[i + 1..]);
    PartsCost(Weights(|defs|, rank), defs[..pos], defs[pos], defs[pos + 1..i + 1], defs[i + 1..]);
  }

  lemma {:induction false} PartsCost(w: Weights, a: seq<ObjDef>, x: ObjDef, m: seq<ObjDef>, r: seq<ObjDef>)
    requires 0 < |m| <= w.size && m[|m| - 1].klass == x.parent && w.rank(x) <= w.size
    requires forall y :: y in m && y.parent == x.klass ==> w.rank(x) < w.rank(y) <= w.size
    ensures Cost(w, a + (m + [x] + r)) < Cost(w, a + ([x] + m + r))
  {
    MoveMends(w, x, m, |m| - 1);
    CostMoved(w, x, m, r);
    CostBehind(w, a, x, m, r);
  }

  lemma {:induction false} MoveKeeps(defs: seq<ObjDef>, pos: nat, i: nat)
    requires pos < i < |defs|
    ensures multiset(MoveBehind(defs, pos, i)) == multiset(defs)
    ensures OrderedTo(defs, pos) ==> OrderedTo(MoveBehind(defs, pos, i), pos)
  {
    var a, x, m, r := defs[..pos], defs[pos], defs[pos + 1..i + 1], defs[i + 1..];
    assert defs == a + ([x] + m + r);
    assert MoveBehind(defs, pos, i) == a + (m + [x] + r);
    MoveKeepsOrder(defs, pos, i);
  }

  lemma {:induction false} MoveKeepsOrder(defs: seq<ObjDef>, pos: nat, i: nat)
    requires pos < i < |defs|
    ensures OrderedTo(defs, pos) ==> OrderedTo(MoveBehind(defs, pos, i), pos)
  {
    var t := MoveBehind(defs, pos, i);
    if OrderedTo(defs, pos) {
      forall q | 0 <= q < pos
        ensures NoParentBehind(t, q)
      {
        assert NoParentBehind(defs, q);
        forall k | q < k < |t|
          ensures t[k].klass != t[q].parent
        {
          var from := if k < pos then k else if k < i then k + 1 else if k == i then pos else k;
          assert t[k] == defs[from] && t[q] == defs[q];
        }
      }
    }
  }

  /** One round keeps the elements, and lowers the cost or advances. */
  lemma {:induction false} RoundProgress(s: State, rank: ObjDef -> nat)
    requires s.pos < |s.defs| && Ranked(s.defs, rank)
    ensures var t, w := Next(s), Weights(|s.defs|, rank);
            if t.defs == s.defs then t.pos == s.pos + 1 else t.pos == s.pos && Cost(w, t.defs) < Cost(w, s.defs)
  {
    var i := FindClass(s.defs, s.defs[s.pos].parent, s.pos + 1);
    if i < |s.defs| {
      MoveCost(s.defs, s.pos, i, rank);
    }
  }

  lemma {:induction false} RoundKeeps(s: State)
    requires s.pos <= |s.defs| && OrderedTo(s.defs, s.pos)
    ensures Keeps(s, Next(s))
  {
    if s.pos < |s.defs| {
      var i := FindClass(s.defs, s.defs[s.pos].parent, s.pos + 1);
      if i < |s.defs| {
        MoveKeeps(s.defs, s.pos, i);
        assert Keeps(s, s.(defs := MoveBehind(s.defs, s.pos, i)));
      } else {
        assert NoParentBehind(s.defs, s.pos);
        assert Keeps(s, s.(pos := s.pos + 1));
      }
    }
  }

  ghost predicate Keeps(s: State, t: State) {
    t.pos <= |t.defs| == |s.defs| && multiset(t.defs) == multiset(s.defs) && OrderedTo(t.defs, t.pos)
  }

  /** Following the loop to its end. */
  lemma {:induction false} LoopEnds(s: State, rank: ObjDef -> nat) returns (n: nat)
    requires s.pos <= |s.defs| && Ranked(s.defs, rank) && OrderedTo(s.defs, s.pos)
    ensures Iterate(s, n).pos >= |s.defs|
    decreases Cost(Weights(|s.defs|, rank), s.defs), |s.defs| - s.pos
  {
    if s.pos == |s.defs| {
      n := 0;
    } else {
      RoundProgress(s, rank);
      RoundKeeps(s);
      LinksOfPermutation(s.defs, Next(s).defs);
      n := LoopEnds(Next(s), rank);
      n := n + 1;
    }
  }

  // ---- Without a cycle there is a ranking ------------------------------------------------

  /** A part of a chain is a chain. */
  lemma {:induction false} ChainPart(defs: seq<ObjDef>, c: seq<ObjDef>, i: nat, j: nat)
    requires IsChain(defs, c) && i < j <= |c|
    ensures IsChain(defs, c[i..j])
  {
    if i > 0 {
      assert Links(defs, c[i - 1], c[i]);
    }
    forall k | 0 <= k < j - i - 1
      ensures Links(defs, c[i..j][k], c[i..j][k + 1])
    {
      assert Links(defs, c[i + k], c[i + k + 1]);
    }
  }

  lemma {:induction false} ChainsAreDistinct(defs: seq<ObjDef>, c: seq<ObjDef>)
    requires !Cyclic(defs) && IsChain(defs, c)
    ensures forall i, j :: 0 <= i < j < |c| ==> c[i] != c[j]
  {
    forall i, j | 0 <= i < j < |c|
      ensures c[i] != c[j]
    {
      ChainPart(defs, c, i, j);
      assert Links(defs, c[j - 1], c[j]);
      assert c[i..j][|c[i..j]| - 1] == c[j - 1] && c[i..j][0] == c[i];
    }
  }

  lemma {:induction false} DistinctBound(c: seq<ObjDef>, s: set<ObjDef>)
    requires forall i, j :: 0 <= i < j < |c| ==> c[i] != c[j]
    requires forall i :: 0 <= i < |c| ==> c[i] in s
    ensures |c| <= |s|
  {
    if c != [] {
      DistinctBound(c[1..], s - {c[0]});
    }
  }

  lemma {:induction false} ElementsBound(defs: seq<ObjDef>)
    ensures |set d | d in defs| <= |defs|
  {
    if defs != [] {
      assert (set d | d in defs) == {defs[0]} + set d | d in defs[1..];
      ElementsBound(defs[1..]);
    }
  }

  lemma {:induction false} ChainBound(defs: seq<ObjDef>, c: seq<ObjDef>)
    requires !Cyclic(defs) && IsChain(defs, c)
    ensures |c| <= |defs|
  {
    ChainsAreDistinct(defs, c);
    forall i | 0 <= i < |c|
      ensures c[i] in defs
    {
      if i > 0 {
        assert Links(defs, c[i - 1], c[i]);
      }
    }
    DistinctBound(c, set d | d in defs);
    ElementsBound(defs);
  }

  /** Some chain of n classes leads up from d. */
  ghost predicate Reaches(defs: seq<ObjDef>, d: ObjDef, n: nat) {
    exists c :: IsChain(defs, c) && |c| == n && c[0] == d
  }

  /** The length of the longest chain of at most n classes that leads up from d. */
  ghost function Height(defs: seq<ObjDef>, d: ObjDef, n: nat): (h: nat)
    ensures h <= n
    ensures h > 0 ==> Reaches(defs, d, h)
    ensures forall k :: h < k <= n ==> !Reaches(defs, d, k)
  {
    if n == 0 || Reaches(defs, d, n) then n else Height(defs, d, n - 1)
  }

  lemma {:induction false} HeightsRank(defs: seq<ObjDef>)
    requires !Cyclic(defs)
    ensures Ranked(defs, d => Height(defs, d, |defs|))
  {
    forall d, e | Links(defs, d, e)
      ensures Height(defs, e, |defs|) < Height(defs, d, |defs|)
    {
      var n := Height(defs, e, |defs|);
      assert IsChain(defs, [e]);
      assert [e][0] == e && Reaches(defs, e, 1);
      ChainBound(defs, [e]);
      var c :| IsChain(defs, c) && |c| == n && c[0] == e;
      var longer := [d] + c;
      assert IsChain(defs, longer) by {
        forall i | 0 <= i < |longer| - 1
          ensures Links(defs, longer[i], longer[i + 1])
        {
          if i > 0 {
            assert Links(defs, c[i - 1], c[i]);
          }
        }
      }
      ChainBound(defs, longer);
      assert Reaches(defs, d, n + 1);
    }
  }

  // ---- An ordered list has no cycle ------------------------------------------------------

  /** The first place of d. */
  ghost function FirstPlace(defs: seq<ObjDef>, d: ObjDef): (i: nat)
    ensures i <= |defs|
    ensures d in defs ==> i < |defs| && defs[i] == d && d !in defs[..i]
  {
    if defs == [] || defs[0] == d then 0
    else
      var i := 1 + FirstPlace(defs[1..], d);
      assert i <= |defs| && (d in defs ==> d in defs[1..] && defs[..i] == [defs[0]] + defs[1..][..i - 1]);
      i
  }

  lemma {:induction false} PlacesRank(defs: seq<ObjDef>)
    requires Ordered(defs)
    ensures Ranked(defs, d => FirstPlace(defs, d))
  {
    forall d, e | Links(defs, d, e)
      ensures FirstPlace(defs, e) < FirstPlace(defs, d)
    {
      var i := FirstPlace(defs, d);
      assert NoParentBehind(defs, i);
      if d == e {
        var j := AnotherPlace(defs, d, i);
      }
    }
  }

  lemma {:induction false} AnotherPlace(defs: seq<ObjDef>, d: ObjDef, i: nat) returns (j: nat)
    requires i < |defs| && defs[i] == d && d !in defs[..i] && multiset(defs)[d] > 1
    ensures i < j < |defs| && defs[j] == d
  {
    assert defs == defs[..i] + [d] + defs[i + 1..];
    assert d in multiset(defs[i + 1..]);
    j :| i < j < |defs| && defs[j] == d;
  }

  lemma {:induction false} RankFallsAlong(defs: seq<ObjDef>, rank: ObjDef -> nat, c: seq<ObjDef>, k: nat)
    requires Ranked(defs, rank) && IsChain(defs, c) && k < |c|
    ensures rank(c[k]) + k <= rank(c[0])
  {
    if k > 0 {
      RankFallsAlong(defs, rank, c, k - 1);
      assert Links(defs, c[k - 1], c[k]);
    }
  }

  lemma {:induction false} RankedIsAcyclic(defs: seq<ObjDef>, rank: ObjDef -> nat)
    requires Ranked(defs, rank)
    ensures !Cyclic(defs)
  {
    if c :| IsChain(defs, c) && Links(defs, c[|c| - 1], c[0]) {
      RankFallsAlong(defs, rank, c, |c| - 1);
    }
  }

  // ---- The main results ------------------------------------------------------------------

  lemma {:induction false} IterateKeeps(s: State, n: nat)
    requires s.pos <= |s.defs| && OrderedTo(s.defs, s.pos)
    ensures Keeps(s, Iterate(s, n))
    decreases n
  {
    if n > 0 {
      RoundKeeps(s);
      IterateKeeps(Next(s), n - 1);
    }
  }

  /** The loop ends exactly on the lists without an inheritance cycle. */
  lemma {:induction false} EndsIffAcyclic(defs: seq<ObjDef>)
    ensures Ends(defs) <==> !Cyclic(defs)
  {
    var s := State(defs, 0);
    if !Cyclic(defs) {
      HeightsRank(defs);
      var n := LoopEnds(s, d => Height(defs, d, |defs|));
    }
    if Ends(defs) {
      var n :| Iterate(s, n).pos >= |defs|;
      IterateKeeps(s, n);
      var last := Iterate(s, n).defs;
      LinksOfPermutation(defs, last);
      PlacesRank(last);
      RankedIsAcyclic(last, d => FirstPlace(last, d));
      CyclesOfPermutation(last, defs);
    }
  }

  lemma {:induction false} CyclesOfPermutation(a: seq<ObjDef>, b: seq<ObjDef>)
    requires multiset(a) == multiset(b)
    ensures Cyclic(b) ==> Cyclic(a)
  {
    LinksOfPermutation(a, b);
    if c :| IsChain(b, c) && Links(b, c[|c| - 1], c[0]) {
      assert IsChain(a, c);
    }
  }

  /** The list that sort_obj_defs() works on in place. */
  class ObjDefs {
    var defs: seq<ObjDef>

    /**
      * sort_obj_defs(). The parameter sorted is what defs.sort() makes of the list: any
      * permutation of it will do. Without the precondition the loop would not end.
      */
    method SortObjDefs(sorted: seq<ObjDef>)
      requires multiset(sorted) == multiset(defs)
      requires !Cyclic(defs)
      modifies this
      ensures multiset(defs) == multiset(old(defs))
      ensures Ordered(defs)
      ensures exists n: nat :: Iterate(State(sorted, 0), n) == State(defs, |defs|)
    {
      ghost var rank := AcyclicRank(defs, sorted);
      defs := sorted;
      var pos: nat := 0;
      ghost var n: nat := 0;
      while pos < |defs|
        invariant InLoop(sorted, rank, State(defs, pos), n)
        decreases Cost(Weights(|sorted|, rank), defs), |defs| - pos
      {
        ghost var before := State(defs, pos);
        RoundInLoop(sorted, rank, before, n);
        pos := Round(pos);
        n := n + 1;
      }
    }

    /** The body of the while loop. */
    method Round(pos: nat) returns (next: nat)
      requires pos < |defs|
      modifies this
      ensures State(defs, next) == Next(old(State(defs, pos)))
    {
      next := pos;
      var i := FindParentBelow(pos);
      if i < |defs| {
        Reorder(pos, i);
      } else {
        next := pos + 1;
      }
    }

    /** The for loop: where below pos the parent of the class at pos is defined, or the length. */
    method FindParentBelow(pos: nat) returns (i: nat)
      requires pos < |defs|
      ensures i == FindClass(defs, defs[pos].parent, pos + 1)
    {
      i := pos + 1;
      while i < |defs| && defs[i].klass != defs[pos].parent
        invariant pos < i <= |defs| && forall j :: pos < j < i ==> defs[j].klass != defs[pos].parent
      {
        i := i + 1;
      }
    }

    /** objdefs.insert(i + 1, objdefs[pos]); del objdefs[pos] */
    method Reorder(pos: nat, i: nat)
      requires pos < i < |defs|
      modifies this
      ensures defs == MoveBehind(old(defs), pos, i)
    {
      InsertAndDelete(defs, pos, i);
      defs := defs[..i + 1] + [defs[pos]] + defs[i + 1..];
      defs := defs[..pos] + defs[pos + 1..];
    }
  }

  lemma {:induction false} InsertAndDelete(defs: seq<ObjDef>, pos: nat, i: nat)
    requires pos < i < |defs|
    ensures var longer := defs[..i + 1] + [defs[pos]] + defs[i + 1..];
            longer[..pos] + longer[pos + 1..] == MoveBehind(defs, pos, i)
  {
  }

  /** What holds whenever the while loop tests its condition. */
  ghost predicate InLoop(sorted: seq<ObjDef>, rank: ObjDef -> nat, s: State, n: nat) {
    && s.pos <= |s.defs| == |sorted|
    && multiset(s.defs) == multiset(sorted)
    && Ranked(sorted, rank)
    && OrderedTo(s.defs, s.pos)
    && Iterate(State(sorted, 0), n) == s
  }

  lemma {:induction false} RoundInLoop(sorted: seq<ObjDef>, rank: ObjDef -> nat, s: State, n: nat)
    requires InLoop(sorted, rank, s, n) && s.pos < |s.defs|
    ensures InLoop(sorted, rank, Next(s), n + 1)
    ensures var t, w := Next(s), Weights(|sorted|, rank);
            if t.defs == s.defs then t.pos == s.pos + 1 else t.pos == s.pos && Cost(w, t.defs) < Cost(w, s.defs)
  {
    LinksOfPermutation(sorted, s.defs);
    RoundKeeps(s);
    RoundProgress(s, rank);
    IterateOnce(State(sorted, 0), n);
  }

  lemma {:induction false} IterateOnce(s: State, n: nat)
    ensures Iterate(s, n + 1) == Next(Iterate(s, n))
    decreases n
  {
    if n > 0 {
      IterateOnce(Next(s), n - 1);
    }
  }

  lemma {:induction false} AcyclicRank(defs: seq<ObjDef>, sorted: seq<ObjDef>) returns (rank: ObjDef -> nat)
    requires multiset(sorted) == multiset(defs) && !Cyclic(defs)
    ensures Ranked(sorted, rank)
  {
    LinksOfPermutation(defs, sorted);
    HeightsRank(defs);
    rank := d => Height(defs, d, |defs|);
  }
}
