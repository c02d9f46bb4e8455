/** Killing a process tree from one snapshot of the process table: children before
    their parents, each process once. */
module ProcessTree {
  import opened Prelude

  type Pid = int

  /** One row of the snapshot. */
  datatype Row = Row(child: Pid, parent: Pid)

  type Children = map<Pid, seq<Pid>>

  function Kids(children: Children, p: Pid): seq<Pid> {
    if p in children then children[p] else []
  }

  ghost predicate NoRepeats(s: seq<Pid>) {
    forall x :: multiset(s)[x] <= 1
  }

  /** Every process is listed as a child of at most one process, once. */
  ghost predicate OneParentEach(children: Children) {
    && (forall p :: NoRepeats(Kids(children, p)))
    && (forall p, q, x :: x in Kids(children, p) && x in Kids(children, q) ==> p == q)
  }

  // --------------------------------------------------------------- descent

  ghost predicate IsPath(children: Children, path: seq<Pid>) {
    |path| > 0 && forall i | 0 <= i < |path| - 1 :: path[i + 1] in Kids(children, path[i])
  }

  /** b is a or a descendant of a. */
  ghost predicate Reaches(children: Children, a: Pid, b: Pid) {
    exists path :: IsPath(children, path) && path[0] == a && path[|path| - 1] == b
  }

  ghost predicate OwnDescendant(children: Children, t: Pid) {
    exists p :: Reaches(children, t, p) && t in Kids(children, p)
  }

  lemma ReachesSelf(children: Children, a: Pid)
    ensures Reaches(children, a, a)
  {
    assert IsPath(children, [a]) && [a][0] == a;
  }

  lemma ReachesKid(children: Children, a: Pid, b: Pid, c: Pid)
    requires Reaches(children, a, b) && c in Kids(children, b)
    ensures Reaches(children, a, c)
  {
    var path :| IsPath(children, path) && path[0] == a && path[|path| - 1] == b;
    var longer := path + [c];
    assert IsPath(children, longer) && longer[0] == a && longer[|longer| - 1] == c;
  }

  // ---------------------------------------------------------- the traversal

  /** One turn: the last pending process is ordered and its children become pending. */
  function Turn(children: Children, ordered: seq<Pid>, pending: seq<Pid>): (seq<Pid>, seq<Pid>)
    requires |pending| > 0
  {
    var current := pending[|pending| - 1];
    (ordered + [current], pending[..|pending| - 1] + Kids(children, current))
  }

  /** A parent comes before its children. */
  ghost predicate ParentsFirst(children: Children, ordered: seq<Pid>) {
    forall i, j | 0 <= i < |ordered| && 0 <= j < |ordered| && ordered[j] in Kids(children, ordered[i]) :: i < j
  }

  ghost predicate Traversing(children: Children, t: Pid, ordered: seq<Pid>, pending: seq<Pid>) {
    && NoRepeats(ordered + pending) && t in ordered + pending
    && (forall x | x in ordered + pending :: Reaches(children, t, x))
    && FamiliesTogether(children, t, ordered, pending) && ParentsFirst(children, ordered)
  }

  /** What is seen, except t, was pushed by its parent, which pushed all its children. */
  ghost predicate FamiliesTogether(children: Children, t: Pid, ordered: seq<Pid>, pending: seq<Pid>) {
    && (forall p, x | x in Kids(children, p) && x in ordered + pending && x != t :: p in ordered)
    && (forall p, x | p in ordered && x in Kids(children, p) :: x in ordered + pending)
  }

  lemma StartTraversing(children: Children, t: Pid)
    ensures Traversing(children, t, [], [t])
  {
    ReachesSelf(children, t);
    assert [] + [t] == [t];
  }

  lemma TurnKeepsElements(children: Children, ordered: seq<Pid>, pending: seq<Pid>)
    requires |pending| > 0
    ensures
      var (o, q) := Turn(children, ordered, pending);
      multiset(o + q) == multiset(ordered + pending) + multiset(Kids(children, pending[|pending| - 1]))
  {
    var n := |pending| - 1;
    assert pending == pending[..n] + [pending[n]];
  }

  lemma PendingIsNotOrdered(ordered: seq<Pid>, pending: seq<Pid>, c: Pid)
    requires NoRepeats(ordered + pending) && c in pending
    ensures c !in ordered
  {
    assert multiset(ordered + pending)[c] == multiset(ordered)[c] + multiset(pending)[c];
    assert c in multiset(pending);
    assert c in ordered <==> c in multiset(ordered);
  }

  lemma TurnAddsNewProcesses(children: Children, t: Pid, ordered: seq<Pid>, pending: seq<Pid>)
    requires |pending| > 0 && Traversing(children, t, ordered, pending) && !OwnDescendant(children, t)
    ensures pending[|pending| - 1] !in ordered
    ensures forall x | x in Kids(children, pending[|pending| - 1]) :: x !in ordered + pending && x != t
  {
    var c := pending[|pending| - 1];
    hide Reaches, ParentsFirst, NoRepeats;
    PendingIsNotOrdered(ordered, pending, c);
    assert c in ordered + pending;
  }

  lemma ElementsAre(s: seq<Pid>, a: seq<Pid>, b: seq<Pid>)
    requires multiset(s) == multiset(a) + multiset(b)
    ensures forall x :: x in s <==> x in a || x in b
  {
    forall x ensures x in s <==> x in a || x in b {
      assert x in s <==> x in multiset(s);
    }
  }

  lemma DisjointHasNoRepeats(s: seq<Pid>, a: seq<Pid>, b: seq<Pid>)
    requires multiset(s) == multiset(a) + multiset(b)
    requires NoRepeats(a) && NoRepeats(b) && forall x | x in b :: x !in a
    ensures NoRepeats(s)
  {
    forall x ensures multiset(s)[x] <= 1 {
      if x in multiset(b) { assert x in b && x !in multiset(a); }
    }
  }

  lemma PushKeepsParentsFirst(children: Children, ordered: seq<Pid>, c: Pid)
    requires ParentsFirst(children, ordered) && c !in ordered
    requires forall x | x in Kids(children, c) :: x !in ordered && x != c
    ensures ParentsFirst(children, ordered + [c])
  {
    hide Kids;
  }

  lemma TurnKeepsFamilies(children: Children, t: Pid, ordered: seq<Pid>, pending: seq<Pid>, q: seq<Pid>, c: Pid)
    requires OneParentEach(children) && FamiliesTogether(children, t, ordered, pending)
    requires forall x :: x in ordered + [c] + q <==> x in ordered + pending || x in Kids(children, c)
    ensures FamiliesTogether(children, t, ordered + [c], q)
  {
    hide Kids, NoRepeats;
  }

  lemma TurnKeepsTraversing(children: Children, t: Pid, ordered: seq<Pid>, pending: seq<Pid>)
    requires OneParentEach(children) && !OwnDescendant(children, t)
    requires |pending| > 0 && Traversing(children, t, ordered, pending)
    ensures Traversing(children, t, Turn(children, ordered, pending).0, Turn(children, ordered, pending).1)
  {
    var c := pending[|pending| - 1];
    var (o, q) := Turn(children, ordered, pending);
    TurnKeepsElements(children, ordered, pending);
    TurnAddsNewProcesses(children, t, ordered, pending);
    ElementsAre(o + q, ordered + pending, Kids(children, c));
    TurnKeepsFamilies(children, t, ordered, pending, q, c);
    assert c in ordered + pending;
    hide OwnDescendant, Reaches, NoRepeats, ParentsFirst, Kids, FamiliesTogether;
    DisjointHasNoRepeats(o + q, ordered + pending, Kids(children, c));
    PushKeepsParentsFirst(children, ordered, c);
    forall x | x in o + q ensures Reaches(children, t, x) {
      if x in Kids(children, c) { ReachesKid(children, t, c, x); }
    }
  }

  // ------------------------------------------------------------ what it gives

  lemma {:induction false} PathStaysIn(children: Children, path: seq<Pid>, ordered: seq<Pid>, k: nat)
    requires IsPath(children, path) && k < |path| && path[0] in ordered
    requires forall p, x | p in ordered && x in Kids(children, p) :: x in ordered
    ensures path[k] in ordered
  {
    hide Kids;
    if k > 0 { PathStaysIn(children, path, ordered, k - 1); }
  }

  lemma {:induction false} PathGoesForward(children: Children, path: seq<Pid>, ordered: seq<Pid>, i: nat, j: nat)
    requires IsPath(children, path) && |path| > 1 && ParentsFirst(children, ordered)
    requires forall p, x | p in ordered && x in Kids(children, p) :: x in ordered
    requires i < |ordered| && j < |ordered| && ordered[i] == path[0] && ordered[j] == path[|path| - 1]
    ensures i < j
    decreases |path|
  {
    if |path| > 2 {
      var n := |path| - 1;
      var shorter := path[..n];
      assert IsPath(children, shorter);
      PathStaysIn(children, path, ordered, n - 1);
      var m :| 0 <= m < |ordered| && ordered[m] == path[n - 1];
      PathGoesForward(children, shorter, ordered, i, m);
      assert path[n - 1 + 1] in Kids(children, path[n - 1]);
    } else {
      assert path[0 + 1] in Kids(children, path[0]);
    }
  }

  /** Exactly the processes of the tree of t, none twice, each before what descends
      from it. */
  ghost predicate TreeOrder(children: Children, t: Pid, order: seq<Pid>) {
    && NoRepeats(order)
    && (forall x :: x in order <==> Reaches(children, t, x))
    && (forall i, j | 0 <= i < |order| && 0 <= j < |order| && i != j && Reaches(children, order[i], order[j]) :: i < j)
  }

  lemma ReachedIsOrdered(children: Children, t: Pid, ordered: seq<Pid>, x: Pid)
    requires Traversing(children, t, ordered, []) && Reaches(children, t, x)
    ensures x in ordered
  {
    assert ordered + [] == ordered;
    hide Kids, NoRepeats, ParentsFirst;
    var path :| IsPath(children, path) && path[0] == t && path[|path| - 1] == x;
    PathStaysIn(children, path, ordered, |path| - 1);
  }

  lemma ReachedComesLater(children: Children, t: Pid, ordered: seq<Pid>, i: nat, j: nat)
    requires Traversing(children, t, ordered, []) && i < |ordered| && j < |ordered| && i != j
    requires Reaches(children, ordered[i], ordered[j])
    ensures i < j
  {
    assert ordered + [] == ordered;
    assert forall p, x | p in ordered && x in Kids(children, p) :: x in ordered;
    hide Kids, NoRepeats, FamiliesTogether, ParentsFirst;
    var path :| IsPath(children, path) && path[0] == ordered[i] && path[|path| - 1] == ordered[j];
    if |path| > 1 {
      PathGoesForward(children, path, ordered, i, j);
    } else {
      RepeatIsCounted(ordered, i, j);
    }
  }

  lemma FinishedIsTreeOrder(children: Children, t: Pid, ordered: seq<Pid>)
    requires Traversing(children, t, ordered, [])
    ensures TreeOrder(children, t, ordered)
  {
    assert ordered + [] == ordered;
    hide Kids, NoRepeats, Reaches, FamiliesTogether, ParentsFirst;
    forall x | Reaches(children, t, x) ensures x in ordered {
      ReachedIsOrdered(children, t, ordered, x);
    }
    forall i, j | 0 <= i < |ordered| && 0 <= j < |ordered| && i != j && Reaches(children, ordered[i], ordered[j])
      ensures i < j
    {
      ReachedComesLater(children, t, ordered, i, j);
    }
  }

  lemma RepeatIsCounted(s: seq<Pid>, i: nat, j: nat)
    requires i < |s| && j < |s| && i != j && NoRepeats(s)
    ensures s[i] != s[j]
  {
    var lo, hi := MinInt(i, j), MaxInt(i, j);
    assert s == s[..hi] + s[hi..];
    assert s[hi..][0] in multiset(s[hi..]) && s[..hi][lo] in multiset(s[..hi]);
    assert multiset(s)[s[hi]] == multiset(s[..hi])[s[hi]] + multiset(s[hi..])[s[hi]];
  }

  // ---------------------------------------------------------- the children map

  /** The children of p in the first n rows, in order. */
  function KidsIn(rows: seq<Row>, n: nat, p: Pid): seq<Pid>
    requires n <= |rows|
  {
    if n == 0 then []
    else if rows[n - 1].parent == p then KidsIn(rows, n - 1, p) + [rows[n - 1].child]
    else KidsIn(rows, n - 1, p)
  }

  /** The map the loop over the first n rows builds. */
  function MapOf(rows: seq<Row>, n: nat): Children
    requires n <= |rows|
  {
    if n == 0 then map[]
    else
      var children, row := MapOf(rows, n - 1), rows[n - 1];
      children[row.parent := Kids(children, row.parent) + [row.child]]
  }

  lemma {:induction false} MapHasKids(rows: seq<Row>, n: nat, p: Pid)
    requires n <= |rows|
    ensures Kids(MapOf(rows, n), p) == KidsIn(rows, n, p)
  {
    if n > 0 {
      MapHasKids(rows, n - 1, p);
    }
  }

  predicate DistinctRows(rows: seq<Row>) {
    forall i, j | 0 <= i < j < |rows| :: rows[i].child != rows[j].child
  }

  /** A child is in the map exactly where a row puts it. */
  lemma {:induction false} KidHasRow(rows: seq<Row>, n: nat, p: Pid, x: Pid)
    requires n <= |rows|
    ensures x in KidsIn(rows, n, p) <==> exists i | 0 <= i < n :: rows[i] == Row(x, p)
  {
    if n > 0 {
      KidHasRow(rows, n - 1, p, x);
      if rows[n - 1] == Row(x, p) { assert KidsIn(rows, n, p)[|KidsIn(rows, n, p)| - 1] == x; }
    }
  }

  lemma {:induction false} KidsDoNotRepeat(rows: seq<Row>, n: nat, p: Pid)
    requires n <= |rows| && DistinctRows(rows)
    ensures NoRepeats(KidsIn(rows, n, p))
  {
    if n > 0 {
      KidsDoNotRepeat(rows, n - 1, p);
      var kids, x := KidsIn(rows, n - 1, p), rows[n - 1].child;
      KidHasRow(rows, n - 1, p, x);
      assert forall y | y in [x] :: y !in kids;
      DisjointHasNoRepeats(kids + [x], kids, [x]);
    }
  }

  lemma KidsOfMapDoNotRepeat(rows: seq<Row>, p: Pid)
    requires DistinctRows(rows)
    ensures NoRepeats(Kids(MapOf(rows, |rows|), p))
  {
    hide NoRepeats, Kids, MapOf, DistinctRows;
    KidsDoNotRepeat(rows, |rows|, p);
    MapHasKids(rows, |rows|, p);
  }

  lemma KidHasOneParent(rows: seq<Row>, p: Pid, q: Pid, x: Pid)
    requires DistinctRows(rows)
    requires x in Kids(MapOf(rows, |rows|), p) && x in Kids(MapOf(rows, |rows|), q)
    ensures p == q
  {
    hide Kids, MapOf, KidsIn;
    MapHasKids(rows, |rows|, p);
    MapHasKids(rows, |rows|, q);
    KidHasRow(rows, |rows|, p, x);
    KidHasRow(rows, |rows|, q, x);
    var i :| 0 <= i < |rows| && rows[i] == Row(x, p);
    var j :| 0 <= j < |rows| && rows[j] == Row(x, q);
    assert i == j;
  }

  lemma DistinctRowsGiveOneParent(rows: seq<Row>)
    requires DistinctRows(rows)
    ensures OneParentEach(MapOf(rows, |rows|))
  {
    var children := MapOf(rows, |rows|);
    hide NoRepeats, Kids, MapOf, DistinctRows;
    forall p ensures NoRepeats(Kids(children, p)) {
      KidsOfMapDoNotRepeat(rows, p);
    }
    forall p, q, x | x in Kids(children, p) && x in Kids(children, q) ensures p == q {
      KidHasOneParent(rows, p, q, x);
    }
  }

  /** The map says about every process what the snapshot says: x is a child of p exactly
      when some row has it so. */
  lemma MappedExactlyWhen(rows: seq<Row>, p: Pid, x: Pid)
    ensures x in Kids(MapOf(rows, |rows|), p) <==> exists i | 0 <= i < |rows| :: rows[i] == Row(x, p)
  {
    hide Kids, MapOf, KidsIn;
    MapHasKids(rows, |rows|, p);
    KidHasRow(rows, |rows|, p, x);
  }

  method BuildChildren(rows: seq<Row>) returns (children: Children)
    ensures children == MapOf(rows, |rows|)
  {
    children := map[];
    for i := 0 to |rows|
      invariant children == MapOf(rows, i)
    {
      var row := rows[i];
      var siblings := if row.parent in children then children[row.parent] else [];
      children := children[row.parent := siblings + [row.child]];
    }
  }

  function Reversed(s: seq<Pid>): (r: seq<Pid>)
    ensures |r| == |s| && forall i | 0 <= i < |s| :: r[i] == s[|s| - 1 - i]
  {
    seq(|s|, i requires 0 <= i < |s| => s[|s| - 1 - i])
  }

  /** Every process of the tree of t is terminated exactly once, after everything that
      descends from it; nothing else is. */
  ghost predicate KillOrder(children: Children, t: Pid, killed: seq<Pid>) {
    && NoRepeats(killed)
    && (forall x :: x in killed <==> Reaches(children, t, x))
    && (forall i, j | 0 <= i < |killed| && 0 <= j < |killed| && i != j && Reaches(children, killed[i], killed[j]) :: j < i)
  }

  lemma ReversedTreeOrder(children: Children, t: Pid, ordered: seq<Pid>)
    requires TreeOrder(children, t, ordered)
    ensures KillOrder(children, t, Reversed(ordered))
  {
    hide Reaches;
    var killed := Reversed(ordered);
    forall x ensures x in killed <==> x in ordered {
      if x in ordered {
        var i :| 0 <= i < |ordered| && ordered[i] == x;
        assert killed[|ordered| - 1 - i] == x;
      }
    }
    ReversedElements(ordered);
    forall i, j | 0 <= i < |killed| && 0 <= j < |killed| && i != j && Reaches(children, killed[i], killed[j]) ensures j < i {
      var n := |ordered| - 1;
      assert ordered[n - i] == killed[i] && ordered[n - j] == killed[j];
    }
  }

  lemma {:induction false} ReversedElements(s: seq<Pid>)
    ensures multiset(Reversed(s)) == multiset(s)
  {
    if |s| > 0 {
      ReversedElements(s[1..]);
      assert s == [s[0]] + s[1..];
      assert Reversed(s) == Reversed(s[1..]) + [s[0]];
    }
  }

  function Listed(rows: seq<Row>, t: Pid): set<Pid> {
    {t} + set i | 0 <= i < |rows| :: rows[i].child
  }

  lemma SeenAreListed(children: Children, rows: seq<Row>, t: Pid, ordered: seq<Pid>, pending: seq<Pid>)
    requires children == MapOf(rows, |rows|) && Traversing(children, t, ordered, pending)
    ensures forall x | x in ordered + pending :: x in Listed(rows, t)
  {
    hide Kids, NoRepeats, Listed, MapOf;
    forall x | x in ordered + pending ensures x in Listed(rows, t) {
      var path :| IsPath(children, path) && path[0] == t && path[|path| - 1] == x;
      ReachedIsListed(children, rows, t, path);
    }
  }

  lemma ReachedIsListed(children: Children, rows: seq<Row>, t: Pid, path: seq<Pid>)
    requires children == MapOf(rows, |rows|) && IsPath(children, path) && path[0] == t
    ensures path[|path| - 1] in Listed(rows, t)
  {
    if |path| > 1 {
      var n := |path| - 1;
      assert path[n - 1 + 1] in Kids(children, path[n - 1]);
      MapHasKids(rows, |rows|, path[n - 1]);
      KidHasRow(rows, |rows|, path[n - 1], path[n]);
    }
  }

  lemma OrderedGrows(ordered: seq<Pid>, current: Pid, listed: set<Pid>)
    requires current !in ordered && current in listed
    ensures listed - (set x | x in ordered + [current]) < listed - (set x | x in ordered)
  {
    assert current in listed - (set x | x in ordered) && current in ordered + [current];
  }

  /** `_terminate_windows_process_tree` on a snapshot, with the processes in the order
      in which it asks for their termination. */
  method TerminateTree(rows: seq<Row>, pid: Pid) returns (killed: seq<Pid>)
    requires pid > 0 ==> DistinctRows(rows) && !OwnDescendant(MapOf(rows, |rows|), pid)
    ensures if pid <= 0 then killed == [] else KillOrder(MapOf(rows, |rows|), pid, killed)
  {
    hide Traversing, OwnDescendant, OneParentEach, TreeOrder, KillOrder, Listed, MapOf;
    if pid <= 0 { return []; }
    var children := BuildChildren(rows);
    DistinctRowsGiveOneParent(rows);
    var ordered: seq<Pid>, pending := [], [pid];
    StartTraversing(children, pid);
    while |pending| > 0
      invariant Traversing(children, pid, ordered, pending)
      decreases Listed(rows, pid) - (set x | x in ordered)
    {
      TurnKeepsTraversing(children, pid, ordered, pending);
      TurnAddsNewProcesses(children, pid, ordered, pending);
      SeenAreListed(children, rows, pid, ordered, pending);
      var current := pending[|pending| - 1];
      assert current in ordered + pending;
      OrderedGrows(ordered, current, Listed(rows, pid));
      pending := pending[..|pending| - 1];
      ordered := ordered + [current];
      pending := pending + Kids(children, current);
    }
    FinishedIsTreeOrder(children, pid, ordered);
    ReversedTreeOrder(children, pid, ordered);
    killed := [];
    var i := |ordered|;
    while i > 0
      invariant 0 <= i <= |ordered| && |killed| == |ordered| - i
      invariant forall k | 0 <= k < |killed| :: killed[k] == ordered[|ordered| - 1 - k]
    {
      i := i - 1;
      killed := killed + [ordered[i]];
    }
    assert killed == Reversed(ordered);
  }

  // ------------------------------------------------------------ when it loops

  /** Pending and ordered processes after n turns; it stays put once nothing is pending. */
  function After(children: Children, t: Pid, n: nat): (seq<Pid>, seq<Pid>) {
    if n == 0 then ([], [t])
    else
      var (ordered, pending) := After(children, t, n - 1);
      if |pending| == 0 then (ordered, pending) else Turn(children, ordered, pending)
  }

  lemma LeadsOn(children: Children, t: Pid, c: Pid)
    requires Reaches(children, c, t) && OwnDescendant(children, t)
    ensures exists x :: x in Kids(children, c) && Reaches(children, x, t)
  {
    var path :| IsPath(children, path) && path[0] == c && path[|path| - 1] == t;
    if |path| > 1 {
      NextLeadsOn(children, t, path);
    } else {
      var p :| Reaches(children, t, p) && t in Kids(children, p);
      var around :| IsPath(children, around) && around[0] == t && around[|around| - 1] == p;
      var full := around + [t];
      assert IsPath(children, full);
      NextLeadsOn(children, t, full);
    }
  }

  lemma NextLeadsOn(children: Children, t: Pid, path: seq<Pid>)
    requires IsPath(children, path) && |path| > 1 && path[|path| - 1] == t
    ensures path[1] in Kids(children, path[0]) && Reaches(children, path[1], t)
  {
    var rest := path[1..];
    assert path[0 + 1] in Kids(children, path[0]);
    forall i | 0 <= i < |rest| - 1 ensures rest[i + 1] in Kids(children, rest[i]) {
      assert path[i + 1 + 1] in Kids(children, path[i + 1]);
    }
    assert IsPath(children, rest);
  }

  lemma {:induction false} PendingForEver(children: Children, t: Pid, n: nat)
    requires OwnDescendant(children, t)
    ensures
      var (ordered, pending) := After(children, t, n);
      |ordered| == n && exists k | 0 <= k < |pending| :: Reaches(children, pending[k], t)
  {
    hide OwnDescendant, Reaches, Kids;
    if n == 0 {
      ReachesSelf(children, t);
      assert [t][0] == t;
    } else {
      PendingForEver(children, t, n - 1);
      var (ordered, pending) := After(children, t, n - 1);
      var k :| 0 <= k < |pending| && Reaches(children, pending[k], t);
      var last := |pending| - 1;
      var next := pending[..last] + Kids(children, pending[last]);
      if k < last {
        assert next[k] == pending[k];
      } else {
        LeadsOn(children, t, pending[last]);
        var x :| x in Kids(children, pending[last]) && Reaches(children, x, t);
        var m :| 0 <= m < |Kids(children, pending[last])| && Kids(children, pending[last])[m] == x;
        assert next[last + m] == x;
      }
    }
  }

  /** The traversal of a snapshot runs out of pending processes after some number of
      turns if and only if the target does not descend from itself. */
  lemma TraversalEndsExactlyWhen(rows: seq<Row>, t: Pid)
    requires DistinctRows(rows)
    ensures
      (exists n: nat :: |After(MapOf(rows, |rows|), t, n).1| == 0) <==> !OwnDescendant(MapOf(rows, |rows|), t)
  {
    var children := MapOf(rows, |rows|);
    if OwnDescendant(children, t) {
      forall n: nat ensures |After(children, t, n).1| > 0 {
        PendingForEver(children, t, n);
      }
    } else {
      var n := TurnsNeeded(rows, t);
    }
  }

  lemma TurnsNeeded(rows: seq<Row>, t: Pid) returns (n: nat)
    requires DistinctRows(rows) && !OwnDescendant(MapOf(rows, |rows|), t)
    ensures |After(MapOf(rows, |rows|), t, n).1| == 0
  {
    hide Traversing, OwnDescendant, OneParentEach, Listed, MapOf, Turn;
    var children := MapOf(rows, |rows|);
    DistinctRowsGiveOneParent(rows);
    StartTraversing(children, t);
    var ordered: seq<Pid>, pending := [], [t];
    n := 0;
    while |pending| > 0
      invariant Traversing(children, t, ordered, pending)
      invariant After(children, t, n) == (ordered, pending)
      decreases Listed(rows, t) - (set x | x in ordered)
    {
      TurnKeepsTraversing(children, t, ordered, pending);
      TurnAddsNewProcesses(children, t, ordered, pending);
      SeenAreListed(children, rows, t, ordered, pending);
      var current := pending[|pending| - 1];
      assert current in ordered + pending;
      OrderedGrows(ordered, current, Listed(rows, t));
      OneTurn(children, t, n, ordered, pending);
      pending := pending[..|pending| - 1] + Kids(children, current);
      ordered := ordered + [current];
      n := n + 1;
    }
  }

  lemma OneTurn(children: Children, t: Pid, n: nat, ordered: seq<Pid>, pending: seq<Pid>)
    requires |pending| > 0 && After(children, t, n) == (ordered, pending)
    ensures
      var current := pending[|pending| - 1];
      && Turn(children, ordered, pending) == (ordered + [current], pending[..|pending| - 1] + Kids(children, current))
      && After(children, t, n + 1) == Turn(children, ordered, pending)
  {
  }

  /** Process numbers are reused, so two processes may each be recorded as the parent
      of the other: then the kill of either never ends. */
  lemma ReusedNumbersNeverEnd()
    ensures
      var rows := [Row(7, 5), Row(5, 7)];
      DistinctRows(rows) && forall n: nat :: |After(MapOf(rows, |rows|), 5, n).1| > 0
  {
    var rows := [Row(7, 5), Row(5, 7)];
    var children := MapOf(rows, |rows|);
    assert Kids(MapOf(rows, 1), 5) == [7] && Kids(MapOf(rows, 1), 7) == [];
    assert Kids(children, 5) == [7] && Kids(children, 7) == [5];
    ReachesSelf(children, 5);
    ReachesKid(children, 5, 5, 7);
    assert 5 in Kids(children, 7);
    TraversalEndsExactlyWhen(rows, 5);
  }
}
