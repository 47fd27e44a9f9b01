/** Two store backends that must answer alike: one flat map under composite
    keys, one table keyed by collection and key; and the one-time import that
    turns the first into the second. */
module Backends {
  import opened Text
  import Store

  type Flat = map<string, string>
  type Table = map<(string, string), string>

  function Composite(collection: string, key: string): string {
    collection + ":" + key
  }

  predicate ColonFree(s: string) { ':' !in s }

  predicate HasPrefix(s: string, p: string) { p <= s }

  // ---- Byte order --------------------------------------------------------------------

  /** sort.Strings order, which is also SQLite's default collation. */
  predicate Less(a: string, b: string) {
    b != "" && (a == "" || a[0] < b[0] || (a[0] == b[0] && Less(a[1..], b[1..])))
  }

  lemma {:induction false} LessTotal(a: string, b: string)
    ensures a == b || Less(a, b) || Less(b, a)
    ensures !(Less(a, b) && Less(b, a)) && !Less(a, a)
  {
    if a != "" && b != "" {
      LessTotal(a[1..], b[1..]);
      LessTotal(a[1..], a[1..]);
      assert a == [a[0]] + a[1..] && b == [b[0]] + b[1..];
    } else if a != "" {
      LessTotal(a[1..], a[1..]);
    }
  }

  lemma {:induction false} LessTransitive(a: string, b: string, c: string)
    requires Less(a, b) && Less(b, c)
    ensures Less(a, c)
  {
    if a != "" && a[0] == b[0] == c[0] {
      LessTransitive(a[1..], b[1..], c[1..]);
    }
  }

  lemma {:induction false} LessUnderPrefix(p: string, a: string, b: string)
    ensures Less(p + a, p + b) <==> Less(a, b)
  {
    if p == "" {
      assert p + a == a && p + b == b;
    } else {
      assert (p + a)[1..] == p[1..] + a && (p + b)[1..] == p[1..] + b;
      LessUnderPrefix(p[1..], a, b);
    }
  }

  predicate Sorted(ks: seq<string>) {
    forall i, j | 0 <= i < j < |ks| :: Less(ks[i], ks[j])
  }

  ghost predicate Listing(ks: seq<string>, s: set<string>) {
    Sorted(ks) && forall k :: k in ks <==> k in s
  }

  lemma FirstOfListing(ks1: seq<string>, ks2: seq<string>, s: set<string>)
    requires Listing(ks1, s) && Listing(ks2, s) && ks1 != [] && ks2 != []
    ensures ks1[0] == ks2[0]
  {
    assert ks1[0] in ks2 && ks2[0] in ks1;
    var i :| 0 <= i < |ks1| && ks1[i] == ks2[0];
    var j :| 0 <= j < |ks2| && ks2[j] == ks1[0];
    LessTotal(ks1[0], ks2[0]);
  }

  lemma RestOfListing(ks: seq<string>, s: set<string>)
    requires Listing(ks, s) && ks != []
    ensures Listing(ks[1..], s - {ks[0]})
  {
    forall k ensures k in ks[1..] <==> k in s - {ks[0]} {
      LessTotal(ks[0], ks[0]);
      if k in ks[1..] {
        var i :| 1 <= i < |ks| && ks[i] == k;
        assert Less(ks[0], ks[i]);
      }
    }
  }

  lemma EmptyListing(ks: seq<string>, s: set<string>)
    requires Listing(ks, s)
    ensures ks == [] <==> s == {}
  {
    if ks == [] {
      assert forall k :: k in s ==> k in ks;
    } else {
      assert ks[0] in s;
    }
  }

  /** There is only one way to list a set in order. */
  lemma {:induction false} ListingUnique(ks1: seq<string>, ks2: seq<string>, s: set<string>)
    requires Listing(ks1, s) && Listing(ks2, s)
    ensures ks1 == ks2
  {
    EmptyListing(ks1, s);
    EmptyListing(ks2, s);
    if ks1 != [] {
      FirstOfListing(ks1, ks2, s);
      RestOfListing(ks1, s);
      RestOfListing(ks2, s);
      ListingUnique(ks1[1..], ks2[1..], s - {ks1[0]});
    }
  }

  /** sort.Strings over the keys of a Go map, taken in any order. */
  method SortKeys(s: set<string>) returns (ks: seq<string>)
    ensures Listing(ks, s)
  {
    ks := [];
    var rest := s;
    while rest != {}
      invariant rest <= s && Listing(ks, s - rest)
      decreases rest
    {
      var k :| k in rest;
      ks := InsertKey(ks, k, s - rest);
      rest := rest - {k};
      assert s - rest == (s - (rest + {k})) + {k};
    }
    assert s - rest == s;
  }

  method InsertKey(ks: seq<string>, k: string, ghost s: set<string>) returns (r: seq<string>)
    requires Listing(ks, s) && k !in s
    ensures Listing(r, s + {k})
  {
    var i := 0;
    while i < |ks| && Less(ks[i], k)
      invariant 0 <= i <= |ks|
      invariant forall j | 0 <= j < i :: Less(ks[j], k)
    {
      i := i + 1;
    }
    r := ks[..i] + [k] + ks[i..];
    InsertedSorted(ks, k, i);
    forall x ensures x in r <==> x in s + {k} {
      assert ks == ks[..i] + ks[i..];
    }
  }

  lemma InsertedSorted(ks: seq<string>, k: string, i: nat)
    requires Sorted(ks) && k !in ks && i <= |ks|
    requires forall j | 0 <= j < i :: Less(ks[j], k)
    requires i < |ks| ==> !Less(ks[i], k)
    ensures Sorted(ks[..i] + [k] + ks[i..])
  {
    var r := ks[..i] + [k] + ks[i..];
    forall j | i <= j < |ks| ensures Less(k, ks[j]) {
      LessTotal(ks[i], k);
      if j > i {
        LessTransitive(k, ks[i], ks[j]);
      }
    }
    assert forall j | 0 <= j < |r| :: r[j] == if j < i then ks[j] else if j == i then k else ks[j - 1];
  }

  // ---- The two backends -----------------------------------------------------------------

  function FlatKeys(data: Flat, c: string): set<string> {
    set k | k in data && HasPrefix(k, c + ":")
  }

  function TableKeys(t: Table, c: string): set<string> {
    set ck | ck in t && ck.0 == c :: ck.1
  }

  /** rows are the values of ks, and ks are the keys of the collection in order. */
  ghost predicate FlatAnswer(data: Flat, c: string, ks: seq<string>, rows: seq<string>) {
    && Listing(ks, FlatKeys(data, c)) && |rows| == |ks|
    && forall i | 0 <= i < |ks| :: ks[i] in data && rows[i] == data[ks[i]]
  }

  ghost predicate TableAnswer(t: Table, c: string, ks: seq<string>, rows: seq<string>) {
    && Listing(ks, TableKeys(t, c)) && |rows| == |ks|
    && forall i | 0 <= i < |ks| :: (c, ks[i]) in t && rows[i] == t[(c, ks[i])]
  }

  ghost predicate FlatLists(data: Flat, c: string, rows: seq<string>) {
    exists ks :: FlatAnswer(data, c, ks, rows)
  }

  ghost predicate TableLists(t: Table, c: string, rows: seq<string>) {
    exists ks :: TableAnswer(t, c, ks, rows)
  }

  /** jsonBackend.list: keys with the collection's prefix, sorted, then rows. */
  method FlatList(data: Flat, c: string) returns (rows: seq<string>)
    ensures FlatLists(data, c, rows)
  {
    var keys := SortKeys(FlatKeys(data, c));
    assert forall j | 0 <= j < |keys| :: keys[j] in FlatKeys(data, c);
    rows := [];
    for i := 0 to |keys|
      invariant |rows| == i
      invariant forall j | 0 <= j < |keys| :: keys[j] in data
      invariant forall j | 0 <= j < i :: rows[j] == data[keys[j]]
    {
      rows := rows + [data[keys[i]]];
    }
    assert FlatAnswer(data, c, keys, rows);
  }

  /** sqliteBackend.list: SELECT v FROM kv WHERE coll = c ORDER BY k. */
  method TableList(t: Table, c: string) returns (rows: seq<string>)
    ensures TableLists(t, c, rows)
  {
    var keys := SortKeys(TableKeys(t, c));
    assert forall j | 0 <= j < |keys| :: keys[j] in TableKeys(t, c);
    rows := [];
    for i := 0 to |keys|
      invariant |rows| == i
      invariant forall j | 0 <= j < |keys| :: (c, keys[j]) in t
      invariant forall j | 0 <= j < i :: rows[j] == t[(c, keys[j])]
    {
      rows := rows + [t[(c, keys[i])]];
    }
    assert TableAnswer(t, c, keys, rows);
  }

  /** The flat map and the table hold the same records. */
  ghost predicate Same(data: Flat, t: Table) {
    && (forall ck | ck in t :: ColonFree(ck.0) && Composite(ck.0, ck.1) in data && data[Composite(ck.0, ck.1)] == t[ck])
    && (forall k | k in data :: exists ck :: ck in t && k == Composite(ck.0, ck.1))
  }

  lemma CompositeInjective(c1: string, k1: string, c2: string, k2: string)
    requires ColonFree(c1) && ColonFree(c2) && Composite(c1, k1) == Composite(c2, k2)
    ensures c1 == c2 && k1 == k2
  {
    IndexOfConcat(c1, ':', k1);
    IndexOfConcat(c2, ':', k2);
    assert Composite(c1, k1) == c1 + [':'] + k1;
    assert Composite(c2, k2) == c2 + [':'] + k2;
  }

  /** The same get. */
  lemma SameGet(data: Flat, t: Table, c: string, k: string)
    requires Same(data, t) && ColonFree(c)
    ensures Composite(c, k) in data <==> (c, k) in t
    ensures (c, k) in t ==> data[Composite(c, k)] == t[(c, k)]
  {
    if Composite(c, k) in data {
      var ck :| ck in t && Composite(c, k) == Composite(ck.0, ck.1);
      CompositeInjective(c, k, ck.0, ck.1);
    }
    if (c, k) in t {
      assert Composite((c, k).0, (c, k).1) in data;
    }
  }

  /** A key carries the prefix of exactly its own collection. */
  lemma PrefixIsCollection(c: string, ck: (string, string))
    requires ColonFree(c) && ColonFree(ck.0)
    ensures HasPrefix(Composite(ck.0, ck.1), c + ":") <==> ck.0 == c
  {
    var k := Composite(ck.0, ck.1);
    assert k[..|ck.0| + 1] == ck.0 + ":";
    if HasPrefix(k, c + ":") {
      assert k == c + ":" + k[|c| + 1..];
      CompositeInjective(ck.0, ck.1, c, k[|c| + 1..]);
    }
  }

  function Prefixed(c: string, ks: seq<string>): seq<string> {
    seq(|ks|, i requires 0 <= i < |ks| => Composite(c, ks[i]))
  }

  lemma PrefixedListing(data: Flat, t: Table, c: string, ks: seq<string>)
    requires Same(data, t) && ColonFree(c) && Listing(ks, TableKeys(t, c))
    ensures Listing(Prefixed(c, ks), FlatKeys(data, c))
  {
    var fs := Prefixed(c, ks);
    forall i, j | 0 <= i < j < |ks| ensures Less(fs[i], fs[j]) {
      LessUnderPrefix(c + ":", ks[i], ks[j]);
    }
    forall k ensures k in fs <==> k in FlatKeys(data, c) {
      if k in fs {
        var i :| 0 <= i < |ks| && fs[i] == k;
        assert ks[i] in TableKeys(t, c);
        assert (c, ks[i]) in t;
        SameGet(data, t, c, ks[i]);
        PrefixIsCollection(c, (c, ks[i]));
      }
      if k in FlatKeys(data, c) {
        var ck :| ck in t && k == Composite(ck.0, ck.1);
        PrefixIsCollection(c, ck);
        assert ck.1 in TableKeys(t, c);
        var i :| 0 <= i < |ks| && ks[i] == ck.1;
        assert fs[i] == k;
      }
    }
  }

  lemma SameOrder(data: Flat, t: Table, c: string, fks: seq<string>, tks: seq<string>)
    requires Same(data, t) && ColonFree(c)
    requires Listing(fks, FlatKeys(data, c)) && Listing(tks, TableKeys(t, c))
    ensures fks == Prefixed(c, tks)
    ensures forall i | 0 <= i < |tks| ::
              (c, tks[i]) in t && fks[i] in data && data[fks[i]] == t[(c, tks[i])]
  {
    PrefixedListing(data, t, c, tks);
    ListingUnique(fks, Prefixed(c, tks), FlatKeys(data, c));
    forall i | 0 <= i < |tks|
      ensures (c, tks[i]) in t && fks[i] in data && data[fks[i]] == t[(c, tks[i])]
    {
      assert tks[i] in TableKeys(t, c);
      SameGet(data, t, c, tks[i]);
    }
  }

  /** The same ordered list. */
  lemma SameList(data: Flat, t: Table, c: string, flat: seq<string>, table: seq<string>)
    requires Same(data, t) && ColonFree(c)
    requires FlatLists(data, c, flat) && TableLists(t, c, table)
    ensures flat == table
  {
    var fks :| FlatAnswer(data, c, fks, flat);
    var tks :| TableAnswer(t, c, tks, table);
    SameOrder(data, t, c, fks, tks);
  }

  // ---- After any operations ----------------------------------------------------------------

  datatype Op = Put(c: string, k: string, v: string) | Del(c: string, k: string)

  function FlatDo(data: Flat, op: Op): Flat {
    match op
    case Put(c, k, v) => data[Composite(c, k) := v]
    case Del(c, k) => data - {Composite(c, k)}
  }

  function TableDo(t: Table, op: Op): Table {
    match op
    case Put(c, k, v) => t[(c, k) := v]
    case Del(c, k) => t - {(c, k)}
  }

  function FlatAll(data: Flat, ops: seq<Op>): Flat {
    if ops == [] then data else FlatDo(FlatAll(data, ops[..|ops| - 1]), ops[|ops| - 1])
  }

  function TableAll(t: Table, ops: seq<Op>): Table {
    if ops == [] then t else TableDo(TableAll(t, ops[..|ops| - 1]), ops[|ops| - 1])
  }

  lemma SameAfter(data: Flat, t: Table, op: Op)
    requires Same(data, t) && ColonFree(op.c)
    ensures Same(FlatDo(data, op), TableDo(t, op))
  {
    var data', t', at := FlatDo(data, op), TableDo(t, op), (op.c, op.k);
    forall ck | ck in t'
      ensures ColonFree(ck.0) && Composite(ck.0, ck.1) in data' && data'[Composite(ck.0, ck.1)] == t'[ck]
    {
      if ck != at {
        assert ck in t;
        if Composite(ck.0, ck.1) == Composite(op.c, op.k) {
          CompositeInjective(ck.0, ck.1, op.c, op.k);
        }
      }
    }
    forall k | k in data' ensures exists ck :: ck in t' && k == Composite(ck.0, ck.1) {
      if k == Composite(op.c, op.k) {
        assert at in t' && k == Composite(at.0, at.1);
      } else {
        var ck :| ck in t && k == Composite(ck.0, ck.1);
        assert ck in t';
      }
    }
  }

  /** Backend refinement: started alike, the two backends stay alike through any
      operations on colon-free collections, so every get and every list agrees. */
  lemma {:induction false} BackendsAgree(data: Flat, t: Table, ops: seq<Op>)
    requires Same(data, t) && forall i | 0 <= i < |ops| :: ColonFree(ops[i].c)
    ensures Same(FlatAll(data, ops), TableAll(t, ops))
  {
    if ops != [] {
      BackendsAgree(data, t, ops[..|ops| - 1]);
      SameAfter(FlatAll(data, ops[..|ops| - 1]), TableAll(t, ops[..|ops| - 1]), ops[|ops| - 1]);
    }
  }

  // ---- The one-time import -------------------------------------------------------------------

  /** strings.Cut at the first colon. */
  function CutKey(ck: string): (r: Option<(string, string)>)
    ensures r.None? <==> ColonFree(ck)
    ensures r.Some? ==> ColonFree(r.value.0) && Composite(r.value.0, r.value.1) == ck
  {
    var i := IndexOf(ck, ':');
    if i == |ck| then None else Some((ck[..i], ck[i + 1..]))
  }

  predicate Importable(data: Flat) { forall k | k in data :: CutKey(k).Some? }

  function Halves(k: string): (string, string) {
    if CutKey(k).Some? then CutKey(k).value else ("", "")
  }

  ghost predicate OneToOne(data: Flat, f: string -> (string, string)) {
    forall a, b | a in data && b in data && f(a) == f(b) :: a == b
  }

  /** The same values under other keys. */
  ghost function Rekeyed(data: Flat, f: string -> (string, string)): Table
    requires OneToOne(data, f)
  {
    map k | k in data :: f(k) := data[k]
  }

  lemma RekeyedPut(data: Flat, f: string -> (string, string), k: string, v: string)
    requires OneToOne(data[k := v], f)
    ensures OneToOne(data, f) && Rekeyed(data[k := v], f) == Rekeyed(data, f)[f(k) := v]
  {
    assert forall a | a in data :: a in data[k := v];
    var t, t' := Rekeyed(data[k := v], f), Rekeyed(data, f)[f(k) := v];
    forall c | c in t' ensures c in t && t[c] == t'[c] {
      if c == f(k) {
        assert k in data[k := v];
      } else {
        var a :| a in data && f(a) == c;
        assert a in data[k := v] && a != k;
      }
    }
    forall c | c in t ensures c in t' {
      var a :| a in data[k := v] && f(a) == c;
    }
  }

  lemma HalvesTellApart(data: Flat)
    requires Importable(data)
    ensures OneToOne(data, Halves)
  {
    forall a, b | a in data && b in data && Halves(a) == Halves(b) ensures a == b {
      assert Composite(Halves(a).0, Halves(a).1) == a && Composite(Halves(b).0, Halves(b).1) == b;
    }
  }

  /** The table that an import of data makes. */
  ghost function RowsOf(data: Flat): Table
    requires Importable(data)
  {
    HalvesTellApart(data);
    Rekeyed(data, Halves)
  }

  /** It answers as the JSON store does. */
  lemma RowsOfSame(data: Flat)
    requires Importable(data)
    ensures Same(data, RowsOf(data))
  {
    HalvesTellApart(data);
    var t := RowsOf(data);
    forall k | k in data ensures exists ck :: ck in t && k == Composite(ck.0, ck.1) {
      assert Halves(k) in t;
    }
    forall ck | ck in t
      ensures ColonFree(ck.0) && Composite(ck.0, ck.1) in data && data[Composite(ck.0, ck.1)] == t[ck]
    {
      var k :| k in data && Halves(k) == ck;
    }
  }

  /** Everything but rest is copied. */
  ghost predicate Copied(data: Flat, rest: set<string>, rows: Table) {
    rest <= data.Keys && Importable(data - rest) && rows == RowsOf(data - rest)
  }

  lemma CopyOne(data: Flat, rest: set<string>, rows: Table, ck: string)
    requires Copied(data, rest, rows) && ck in rest && CutKey(ck).Some?
    ensures Copied(data, rest - {ck}, rows[CutKey(ck).value := data[ck]])
  {
    var done := data - rest;
    assert data - (rest - {ck}) == done[ck := data[ck]];
    HalvesTellApart(done[ck := data[ck]]);
    RekeyedPut(done, Halves, ck, data[ck]);
  }

  lemma CopiedAll(data: Flat, rows: Table)
    requires Copied(data, {}, rows)
    ensures Importable(data) && rows == RowsOf(data)
  {
    assert data - {} == data;
  }

  /** The copying loop of importJSONStore, into an empty table. */
  method ImportRows(data: Flat) returns (t: Option<Table>)
    ensures t.None? <==> !Importable(data)
    ensures t.Some? ==> t.value == RowsOf(data)
  {
    var rest, rows: Table := data.Keys, map[];
    while rest != {}
      invariant Copied(data, rest, rows)
      decreases rest
    {
      var ck :| ck in rest;
      var cut := CutKey(ck);
      if cut.None? {
        return None;
      }
      CopyOne(data, rest, rows, ck);
      rows := rows[cut.value := data[ck]];
      rest := rest - {ck};
    }
    CopiedAll(data, rows);
    return Some(rows);
  }

  datatype ImportState = Skipped | NoStore | Imported

  datatype Db = Db(meta: Option<ImportState>, kv: Table)

  /** readJSONStoreForImport: primary, else backup, else nothing to import. */
  datatype Source = Records(data: Flat) | Nothing | Unreadable

  function ReadSource(d: Store.Disk): Source {
    if d.primary.Good? then Records(d.primary.data)
    else if d.backup.Good? then Records(d.backup.data)
    else if d.primary.Missing? && d.backup.Missing? then Nothing
    else Unreadable
  }

  /** The import transaction; an error rolls it back. */
  ghost predicate ImportTx(db: Db, src: Source, db': Db, imported: bool) {
    if db.meta.Some? then db' == db && !imported
    else if db.kv != map[] then db' == db.(meta := Some(Skipped)) && !imported
    else match src
      case Unreadable => db' == db && !imported
      case Nothing => db' == db.(meta := Some(NoStore)) && !imported
      case Records(data) =>
        if Importable(data) then imported && db' == Db(Some(Imported), RowsOf(data))
        else db' == db && !imported
  }

  /** Processes opening the database while others already write to it. opening
      holds those that saw no import mark and are on their way to the import
      transaction. */
  datatype Sys = Sys(db: Db, disk: Store.Disk, opening: set<nat>, imports: nat)

  datatype Step = Check(p: nat) | Import(p: nat) | Write(op: Op) | JsonChange(disk: Store.Disk)

  ghost predicate Next(s: Sys, step: Step, s': Sys) {
    match step
    case Check(p) =>
      s' == if s.db.meta.None? then s.(opening := s.opening + {p}) else s
    case Import(p) =>
      && p in s.opening
      && exists imported ::
           && ImportTx(s.db, ReadSource(s.disk), s'.db, imported)
           && s' == s.(db := s'.db, opening := s.opening - {p},
                       imports := s.imports + (if imported then 1 else 0))
    case Write(op) => s' == s.(db := s.db.(kv := TableDo(s.db.kv, op)))
    case JsonChange(disk) => s' == s.(disk := disk)
  }

  ghost predicate CanStep(s: Sys, s': Sys) { exists step :: Next(s, step, s') }

  ghost predicate Run(trace: seq<Sys>) {
    && trace != [] && trace[0].imports == 0 && trace[0].db.meta.None?
    && forall i | 0 <= i < |trace| - 1 :: CanStep(trace[i], trace[i + 1])
  }

  predicate Once(s: Sys) { s.imports <= 1 && (s.imports == 1 ==> s.db.meta == Some(Imported)) }

  /** An import into an empty table that then answers as the JSON store. */
  ghost predicate Imports(s: Sys, s': Sys) {
    && s.db.kv == map[] && ReadSource(s.disk).Records?
    && Same(ReadSource(s.disk).data, s'.db.kv)
  }

  lemma StepOnce(s: Sys, s': Sys)
    requires CanStep(s, s') && Once(s)
    ensures Once(s') && (s'.imports > s.imports ==> Imports(s, s'))
  {
    if s'.imports > s.imports {
      RowsOfSame(ReadSource(s.disk).data);
    }
  }

  lemma {:induction false} RunOnce(trace: seq<Sys>, k: nat)
    requires Run(trace) && k < |trace|
    ensures Once(trace[k])
  {
    if k > 0 {
      RunOnce(trace, k - 1);
      assert CanStep(trace[k - 1], trace[k - 1 + 1]);
      StepOnce(trace[k - 1], trace[k]);
    }
  }

  /** One-time import: however many processes open the database together, rows
      are imported at most once, only into an empty table, and the import
      leaves a table that answers as the JSON store did. */
  lemma ImportsOnce(trace: seq<Sys>)
    requires Run(trace)
    ensures Once(trace[|trace| - 1])
    ensures forall i | 0 <= i < |trace| - 1 && trace[i + 1].imports > trace[i].imports ::
              Imports(trace[i], trace[i + 1])
  {
    RunOnce(trace, |trace| - 1);
    forall i | 0 <= i < |trace| - 1 && trace[i + 1].imports > trace[i].imports
      ensures Imports(trace[i], trace[i + 1])
    {
      RunOnce(trace, i);
      StepOnce(trace[i], trace[i + 1]);
    }
  }
}
