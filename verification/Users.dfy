/** User records and the username index that is kept in step with them inside
    each store transaction. Names are ASCII. */
module Users {
  import opened Text

  datatype User = User(id: string, name: string, rest: string)

  /** The two collections a transaction sees. */
  datatype Repo = Repo(users: map<string, User>, index: map<string, string>)

  datatype Result = Ok(repo: Repo) | Err

  // ---- Names -------------------------------------------------------------------

  function LowerChar(c: char): char {
    if 'A' <= c <= 'Z' then (c as int + 32) as char else c
  }

  function ToLower(s: string): string {
    seq(|s|, i requires 0 <= i < |s| => LowerChar(s[i]))
  }

  predicate EqualFold(a: string, b: string) { ToLower(a) == ToLower(b) }

  function IndexKey(name: string): string { ToLower(TrimSpace(name)) }

  /** usernameIndexKeys: the normalized key and, if different, the raw one. */
  function IndexKeys(name: string): set<string> {
    var t := TrimSpace(name);
    if t == "" then {} else {IndexKey(t), t}
  }

  predicate Blank(name: string) { TrimSpace(name) == "" }

  // ---- Operations ----------------------------------------------------------------

  function ById(r: Repo, id: string): Option<User> {
    if id in r.users then Some(r.users[id]) else None
  }

  /** userByNameTx: the normalized key first, then the raw one; an index entry
      without a record counts as absent. */
  function ByName(r: Repo, name: string): Option<User> {
    var t := TrimSpace(name);
    if t == "" then None
    else if IndexKey(t) in r.index then ById(r, r.index[IndexKey(t)])
    else if t in r.index then ById(r, r.index[t])
    else None
  }

  function Create(r: Repo, user: User, freshId: string): Result {
    var u := user.(name := TrimSpace(user.name), id := if user.id == "" then freshId else user.id);
    if u.name == "" then Err
    else if ByName(r, u.name).Some? then Err
    else Ok(Repo(r.users[u.id := u], r.index[IndexKey(u.name) := u.id]))
  }

  function UpdateTx(r: Repo, u: User): Result {
    if u.id !in r.users then Err
    else
      var existing := r.users[u.id];
      var renamed := !EqualFold(existing.name, u.name);
      var other := ByName(r, u.name);
      if renamed && other.Some? && other.value.id != u.id then Err
      else
        var index := if renamed then r.index - IndexKeys(existing.name) else r.index;
        Ok(Repo(r.users[u.id := u], index[IndexKey(u.name) := u.id]))
  }

  function Update(r: Repo, user: User): Result {
    if user.id == "" || Blank(user.name) then Err
    else UpdateTx(r, user.(name := TrimSpace(user.name)))
  }

  /** fn returns None to abort. A missing user is not an error. */
  function Mutate(r: Repo, id: string, fn: User -> Option<User>): Result {
    if id !in r.users then Ok(r)
    else
      match fn(r.users[id])
      case None => Err
      case Some(u) => UpdateTx(r, u)
  }

  function Delete(r: Repo, id: string): Result {
    if id !in r.users then Ok(r)
    else Ok(Repo(r.users - {id}, r.index - IndexKeys(r.users[id].name)))
  }

  // ---- Agreement --------------------------------------------------------------------

  /** Index entries and records are in bijection by normalized name. */
  predicate Agree(r: Repo) {
    && (forall id | id in r.users ::
          var u := r.users[id];
          u.id == id && !Blank(u.name) && IndexKey(u.name) in r.index && r.index[IndexKey(u.name)] == id)
    && (forall k | k in r.index ::
          r.index[k] in r.users && IndexKey(r.users[r.index[k]].name) == k)
  }

  lemma {:induction false} TrimLeftLower(s: string)
    ensures TrimLeft(ToLower(s)) == ToLower(TrimLeft(s))
  {
    if s != "" && IsSpace(s[0]) {
      assert ToLower(s)[1..] == ToLower(s[1..]);
      TrimLeftLower(s[1..]);
    }
  }

  lemma {:induction false} TrimRightLower(s: string)
    ensures TrimRight(ToLower(s)) == ToLower(TrimRight(s))
  {
    if s != "" && IsSpace(s[|s| - 1]) {
      assert ToLower(s)[..|s| - 1] == ToLower(s[..|s| - 1]);
      TrimRightLower(s[..|s| - 1]);
    }
  }

  lemma IndexKeyCommutes(s: string)
    ensures IndexKey(s) == TrimSpace(ToLower(s))
  {
    TrimLeftLower(s);
    TrimRightLower(TrimLeft(s));
  }

  /** Names equal up to case have the same key. */
  lemma SameKey(a: string, b: string)
    requires EqualFold(a, b)
    ensures IndexKey(a) == IndexKey(b)
  {
    IndexKeyCommutes(a);
    IndexKeyCommutes(b);
  }

  /** Trimming again changes nothing, and no index key holds a capital letter. */
  lemma KeyFacts(name: string)
    ensures TrimSpace(TrimSpace(name)) == TrimSpace(name)
    ensures IndexKey(TrimSpace(name)) == IndexKey(name)
    ensures ToLower(IndexKey(name)) == IndexKey(name)
    ensures Blank(name) <==> IndexKey(name) == ""
  {
    TrimSpaceTrims(name);
    TrimSpaceKeeps(TrimSpace(name));
  }

  /** The raw name is an index key only if it is its own normalized key. */
  lemma RawKeyIsNormal(r: Repo, name: string)
    requires Agree(r) && TrimSpace(name) in r.index
    ensures TrimSpace(name) == IndexKey(name)
  {
  }

  /** Lookup by name finds exactly the record with that normalized name. */
  lemma LookupFinds(r: Repo, name: string)
    requires Agree(r)
    ensures forall id | id in r.users ::
              ByName(r, name) == Some(r.users[id]) <==> IndexKey(r.users[id].name) == IndexKey(name)
    ensures ByName(r, name).None? <==> IndexKey(name) !in r.index
  {
    KeyFacts(name);
    var t := TrimSpace(name);
    if IndexKey(name) in r.index {
      assert ByName(r, name) == Some(r.users[r.index[IndexKey(name)]]);
      assert t != "";
    } else {
      if t in r.index {
        RawKeyIsNormal(r, name);
      }
    }
    forall id | id in r.users
      ensures ByName(r, name) == Some(r.users[id]) <==> IndexKey(r.users[id].name) == IndexKey(name)
    {
      assert r.users[id].id == id && r.index[IndexKey(r.users[id].name)] == id;
    }
  }

  /** So names are unique up to case and surrounding space. */
  lemma NamesUnique(r: Repo, a: string, b: string)
    requires Agree(r) && a in r.users && b in r.users
    requires IndexKey(r.users[a].name) == IndexKey(r.users[b].name)
    ensures a == b
  {
  }

  // ---- Operations keep agreement ---------------------------------------------------------

  /** Create keeps agreement exactly when the ID is fresh. */
  lemma CreateKeeps(r: Repo, user: User, freshId: string)
    requires Agree(r) && Create(r, user, freshId).Ok?
    ensures Agree(Create(r, user, freshId).repo) <==>
            (if user.id == "" then freshId else user.id) !in r.users
  {
    var id := if user.id == "" then freshId else user.id;
    var r' := Create(r, user, freshId).repo;
    var u := r'.users[id];
    KeyFacts(user.name);
    KeyFacts(u.name);
    LookupFinds(r, u.name);
    assert IndexKey(u.name) !in r.index;
    if id in r.users {
      var k := IndexKey(r.users[id].name);
      assert k in r'.index && r'.index[k] == id && IndexKey(r'.users[id].name) != k;
    }
  }

  /** Moving a record from one key to another that nobody else uses. */
  lemma Rekey(r: Repo, u: User, k: string)
    requires Agree(r) && u.id in r.users && !Blank(u.name) && k == IndexKey(u.name)
    requires k in r.index ==> r.index[k] == u.id
    ensures Agree(Repo(r.users[u.id := u], (r.index - {IndexKey(r.users[u.id].name)})[k := u.id]))
  {
  }

  lemma NewIndex(r: Repo, u: User)
    requires Agree(r) && UpdateTx(r, u).Ok?
    ensures var k0, k := IndexKey(r.users[u.id].name), IndexKey(u.name);
            && UpdateTx(r, u).repo == Repo(r.users[u.id := u], (r.index - {k0})[k := u.id])
            && (k in r.index ==> r.index[k] == u.id)
  {
    var existing := r.users[u.id];
    assert r.index[IndexKey(existing.name)] == u.id;
    LookupFinds(r, u.name);
    if EqualFold(existing.name, u.name) {
      SameKey(existing.name, u.name);
      assert UpdateTx(r, u).repo.index == (r.index - {IndexKey(existing.name)})[IndexKey(u.name) := u.id];
    } else {
      RemovedKeys(r, existing.name);
    }
  }

  /** A written record keeps agreement exactly when its name is not blank. */
  lemma UpdateTxKeeps(r: Repo, u: User)
    requires Agree(r) && UpdateTx(r, u).Ok?
    ensures Agree(UpdateTx(r, u).repo) <==> !Blank(u.name)
  {
    NewIndex(r, u);
    if Blank(u.name) {
      assert u.id in UpdateTx(r, u).repo.users;
    } else {
      Rekey(r, u, IndexKey(u.name));
    }
  }

  /** Of the keys removed with a name, only the normalized one is in use. */
  lemma RemovedKeys(r: Repo, name: string)
    requires Agree(r) && !Blank(name)
    ensures r.index - IndexKeys(name) == r.index - {IndexKey(name)}
  {
    KeyFacts(name);
    var t := TrimSpace(name);
    if t in r.index {
      RawKeyIsNormal(r, name);
    }
  }

  lemma DeleteKeeps(r: Repo, id: string)
    requires Agree(r)
    ensures Agree(Delete(r, id).repo) && id !in Delete(r, id).repo.users
    ensures forall other | other in r.users && other != id ::
              other in Delete(r, id).repo.users && Delete(r, id).repo.users[other] == r.users[other]
  {
    if id in r.users {
      RemovedKeys(r, r.users[id].name);
      assert r.index[IndexKey(r.users[id].name)] == id;
    }
  }

  // ---- Every reachable state -------------------------------------------------------------

  datatype Request =
    | DoCreate(user: User, freshId: string)
    | DoUpdate(user: User)
    | DoMutate(id: string, fn: User -> Option<User>)
    | DoDelete(id: string)

  function Perform(r: Repo, q: Request): Result {
    match q
    case DoCreate(u, id) => Create(r, u, id)
    case DoUpdate(u) => Update(r, u)
    case DoMutate(id, fn) => Mutate(r, id, fn)
    case DoDelete(id) => Delete(r, id)
  }

  /** What callers owe: an ID that is not taken, and a callback that leaves a
      name behind. */
  predicate Proper(r: Repo, q: Request) {
    match q
    case DoCreate(u, id) => (if u.id == "" then id else u.id) !in r.users
    case DoMutate(id, fn) =>
      id in r.users && fn(r.users[id]).Some? ==> !Blank(fn(r.users[id]).value.name)
    case _ => true
  }

  /** A transaction that returns an error leaves the store as it was. */
  function Serve(r: Repo, qs: seq<Request>): Repo {
    if qs == [] then r
    else
      var before := Serve(r, qs[..|qs| - 1]);
      match Perform(before, qs[|qs| - 1])
      case Ok(after) => after
      case Err => before
  }

  predicate AllProper(r: Repo, qs: seq<Request>) {
    qs == [] ||
    (AllProper(r, qs[..|qs| - 1]) && Proper(Serve(r, qs[..|qs| - 1]), qs[|qs| - 1]))
  }

  lemma PerformKeeps(r: Repo, q: Request)
    requires Agree(r) && Proper(r, q) && Perform(r, q).Ok?
    ensures Agree(Perform(r, q).repo)
  {
    match q
    case DoCreate(u, id) => CreateKeeps(r, u, id);
    case DoUpdate(u) =>
      KeyFacts(u.name);
      UpdateTxKeeps(r, u.(name := TrimSpace(u.name)));
    case DoMutate(id, fn) =>
      if id in r.users {
        UpdateTxKeeps(r, fn(r.users[id]).value);
      }
    case DoDelete(id) => DeleteKeeps(r, id);
  }

  /** User index agreement in every reachable state. */
  lemma {:induction false} IndexAlwaysAgrees(qs: seq<Request>)
    requires AllProper(Repo(map[], map[]), qs)
    ensures Agree(Serve(Repo(map[], map[]), qs))
  {
    if qs != [] {
      var before := Serve(Repo(map[], map[]), qs[..|qs| - 1]);
      IndexAlwaysAgrees(qs[..|qs| - 1]);
      if Perform(before, qs[|qs| - 1]).Ok? {
        PerformKeeps(before, qs[|qs| - 1]);
      }
    }
  }
}
