/** Measuring a directory tree, and the flat view of storage it is compared
    with. */
module Usage {
  import opened Sums
  import QuotaRun

  /** What a walk meets at a name: a file, a directory, an entry that is gone by
      the time it is looked at, or one whose look-up fails otherwise. */
  datatype Node =
    | File(name: string, size: nat)
    | Dir(name: string, children: seq<Node>)
    | Gone(name: string)
    | Unreadable(name: string)

  function Bytes(n: Node): nat
    decreases n
  {
    match n
    case File(_, size) => size
    case Dir(_, children) => BytesAll(children)
    case _ => 0
  }

  function BytesAll(ns: seq<Node>): nat
    decreases ns
  {
    if ns == [] then 0 else Bytes(ns[0]) + BytesAll(ns[1..])
  }

  function Files(n: Node): nat
    decreases n
  {
    match n
    case File(_, _) => 1
    case Dir(_, children) => FilesAll(children)
    case _ => 0
  }

  function FilesAll(ns: seq<Node>): nat
    decreases ns
  {
    if ns == [] then 0 else Files(ns[0]) + FilesAll(ns[1..])
  }

  lemma {:induction false} TotalsSnoc(ns: seq<Node>, n: Node)
    ensures BytesAll(ns + [n]) == BytesAll(ns) + Bytes(n)
    ensures FilesAll(ns + [n]) == FilesAll(ns) + Files(n)
  {
    if ns == [] {
      assert ns + [n] == [n] && [n][1..] == [];
    } else {
      assert (ns + [n])[1..] == ns[1..] + [n];
      TotalsSnoc(ns[1..], n);
    }
  }

  /** Some look-up below n fails. */
  predicate Fails(n: Node)
    decreases n
  {
    n.Unreadable? || (n.Dir? && AnyFails(n.children))
  }

  predicate AnyFails(ns: seq<Node>)
    decreases ns
  {
    exists i | 0 <= i < |ns| :: Fails(ns[i])
  }

  /** measureDirUsage, and measureUsageForQuota on a directory: a loop over the
      entries that recurses into directories, passes over entries that are gone
      and stops at the first one that fails, with the totals so far. */
  method MeasureDir(entries: seq<Node>) returns (bytes: nat, files: nat, failed: bool)
    ensures failed <==> AnyFails(entries)
    ensures !failed ==> bytes == BytesAll(entries) && files == FilesAll(entries)
    ensures failed ==> exists k | 0 <= k < |entries| :: Fails(entries[k]) && !AnyFails(entries[..k])
                         && bytes == BytesAll(entries[..k]) && files == FilesAll(entries[..k])
    decreases entries
  {
    bytes, files, failed := 0, 0, false;
    assert entries[..0] == [];
    for i := 0 to |entries|
      invariant !failed && forall j | 0 <= j < i :: !Fails(entries[j])
      invariant bytes == BytesAll(entries[..i]) && files == FilesAll(entries[..i])
    {
      TotalsSnoc(entries[..i], entries[i]);
      assert entries[..i + 1] == entries[..i] + [entries[i]];
      match entries[i]
      case File(_, size) =>
        bytes, files := bytes + size, files + 1;
      case Dir(_, children) =>
        var b, f, bad := MeasureDir(children);
        if bad {
          assert Fails(entries[i]) && !AnyFails(entries[..i]);
          return bytes, files, true;
        }
        bytes, files := bytes + b, files + f;
      case Gone(_) =>
      case Unreadable(_) =>
        assert Fails(entries[i]) && !AnyFails(entries[..i]);
        return bytes, files, true;
    }
    assert entries[..|entries|] == entries;
  }

  // ---- The flat view ---------------------------------------------------------------------

  predicate Distinct(n: Node)
    decreases n
  {
    n.Dir? ==> DistinctAll(n.children)
  }

  /** Siblings have different names, at every level. */
  predicate DistinctAll(ns: seq<Node>)
    decreases ns
  {
    && (forall i | 0 <= i < |ns| :: Distinct(ns[i]))
    && (forall i, j | 0 <= i < j < |ns| :: ns[i].name != ns[j].name)
  }

  ghost function Flat(n: Node, dir: QuotaRun.Path): map<QuotaRun.Path, int>
    decreases n
  {
    match n
    case File(name, size) => map[dir + [name] := size]
    case Dir(name, children) => FlatAll(children, dir + [name])
    case _ => map[]
  }

  ghost function FlatAll(ns: seq<Node>, dir: QuotaRun.Path): map<QuotaRun.Path, int>
    decreases ns
  {
    if ns == [] then map[] else Flat(ns[0], dir) + FlatAll(ns[1..], dir)
  }

  lemma {:induction false} FlatBelow(n: Node, dir: QuotaRun.Path, p: QuotaRun.Path)
    requires p in Flat(n, dir)
    ensures |dir| < |p| && p[..|dir|] == dir && p[|dir|] == n.name
    decreases n
  {
    if n.Dir? {
      var i := FlatAllBelow(n.children, dir + [n.name], p);
      assert p[..|dir| + 1][..|dir|] == dir && p[..|dir| + 1][|dir|] == n.name;
    }
  }

  lemma {:induction false} FlatAllBelow(ns: seq<Node>, dir: QuotaRun.Path, p: QuotaRun.Path) returns (i: nat)
    requires p in FlatAll(ns, dir)
    ensures i < |ns| && |dir| < |p| && p[..|dir|] == dir && p[|dir|] == ns[i].name
    decreases ns
  {
    if p in FlatAll(ns[1..], dir) {
      var j := FlatAllBelow(ns[1..], dir, p);
      i := j + 1;
    } else {
      i := 0;
      FlatBelow(ns[0], dir, p);
    }
  }

  lemma UnionParts<K>(a: map<K, int>, b: map<K, int>)
    requires a.Keys !! b.Keys
    ensures Restrict(a + b, b.Keys) == b && (a + b) - b.Keys == a
  {
  }

  lemma SumUnion<K>(a: map<K, int>, b: map<K, int>)
    requires a.Keys !! b.Keys
    ensures Sum(a + b) == Sum(a) + Sum(b) && |a + b| == |a| + |b|
  {
    SumSplit(a + b, b.Keys);
    SizeSplit(a + b, b.Keys);
    UnionParts(a, b);
  }

  lemma {:induction false} FlatTotals(n: Node, dir: QuotaRun.Path)
    requires Distinct(n)
    ensures Sum(Flat(n, dir)) == Bytes(n) && |Flat(n, dir)| == Files(n)
    decreases n
  {
    match n
    case File(name, size) =>
      SumUpdate(map[], dir + [name], size);
      assert Flat(n, dir) == map[][dir + [name] := size];
    case Dir(name, children) => FlatAllTotals(children, dir + [name]);
    case _ =>
  }

  /** What the walk adds up is the sum over the flat view, so the totals that
      the quota invariants speak about are what MeasureUsage returns. */
  lemma {:induction false} FlatAllTotals(ns: seq<Node>, dir: QuotaRun.Path)
    requires DistinctAll(ns)
    ensures Sum(FlatAll(ns, dir)) == BytesAll(ns) && |FlatAll(ns, dir)| == FilesAll(ns)
    decreases ns
  {
    if ns != [] {
      var a, b := Flat(ns[0], dir), FlatAll(ns[1..], dir);
      FlatTotals(ns[0], dir);
      FlatAllTotals(ns[1..], dir);
      forall p | p in a ensures p !in b {
        FlatBelow(ns[0], dir, p);
        if p in b {
          var i := FlatAllBelow(ns[1..], dir, p);
        }
      }
      SumUnion(a, b);
    }
  }
}
