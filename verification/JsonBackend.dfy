/** One process's view of the store file: the fields of jsonBackend and the calls
    that change them, on a directory other processes write to as well. */
module JsonBackends {
  import opened Text
  import opened Store
  import Backends

  /** The files of the store. Every replacement of the primary, by anyone, gets a
      stamp of its own. */
  class StoreDir {
    var primary: Image
    var backup: Image
    var stamp: nat

    constructor ()
      ensures primary == Missing && backup == Missing && stamp == 0
    {
      primary, backup, stamp := Missing, Missing, 0;
    }

    function State(): Disk
      reads this
    {
      Disk(primary, backup)
    }

    method Replace(image: Image)
      modifies this
      ensures primary == image && backup == old(backup) && stamp == old(stamp) + 1
    {
      primary, stamp := image, stamp + 1;
    }
  }

  /** Which file operations of one call succeed. */
  datatype Faults = Faults(lock: bool, write: Replacement, stat: bool, backup: Replacement)

  /** How far flush gets; an unsynced primary ends it. */
  function Reached(f: Faults): Stage {
    if f.write.NotReplaced? then NothingWritten
    else if f.write.Unsynced? || f.backup.NotReplaced? then PrimaryWritten
    else BackupWritten
  }

  predicate Succeeds(f: Faults) { f.lock && f.write.Replaced? && f.backup.Replaced? }

  /** What a call works on: the file, unless memory already stands for it. */
  function Latest(primary: Image, fileStamp: nat, data: Data, stamp: Option<nat>): Data {
    if primary.Good? && stamp != Some(fileStamp) then primary.data else data
  }

  datatype Answer = Found(value: string) | Absent | Unreadable

  function Lookup(d: Data, k: string): Answer { if k in d then Found(d[k]) else Absent }

  class JsonBackend {
    const dir: StoreDir
    var data: Data
    var stamp: Option<nat>
    var dirty: bool
    var readErr: bool

    /** A clean process whose stamp is that of the file has the file's data. */
    predicate InStep()
      reads this, dir
    {
      stamp == Some(dir.stamp) && !dirty ==> dir.primary == Good(data)
    }

    predicate Valid()
      reads this, dir
    {
      && InStep()
      && (stamp.Some? ==> stamp.value <= dir.stamp)
      && (readErr ==> stamp != Some(dir.stamp))
    }

    function Current(): Data
      reads this, dir
    {
      Latest(dir.primary, dir.stamp, data, stamp)
    }

    constructor (d: StoreDir)
      ensures dir == d && data == map[] && stamp == None && !dirty && !readErr && Valid()
    {
      dir, data, stamp, dirty, readErr := d, map[], None, false, false;
    }

    /** load; restore says whether rewriting the primary from the backup works. */
    method LoadFiles(restore: bool) returns (ok: bool)
      modifies this`data, dir
      ensures ok == old(Load(dir.State())).LoadedAs?
      ensures ok && old(data) == map[] ==> old(Load(dir.State())) == LoadedAs(data)
      ensures dir.State() == if restore then old(AfterLoad(dir.State())) else old(dir.State())
      ensures dir.stamp == old(dir.stamp) + if dir.primary == old(dir.primary) then 0 else 1
    {
      ok := true;
      if dir.primary.Good? {
        data := dir.primary.data;
      } else if dir.backup.Good? {
        data := dir.backup.data;
        if restore { dir.Replace(dir.backup); }
      } else {
        ok := dir.primary.Missing? && dir.backup.Missing?;
      }
    }

    /** openJSONBackend on a new object. between is what another process makes of
        the file after the load and before the Stat. The process starts in step
        with the file exactly when nobody put other contents there and the file
        it loaded was readable or could be restored. */
    method Open(restore: bool, between: Option<Image>) returns (ok: bool)
      requires data == map[] && stamp == None && !dirty && !readErr
      modifies this, dir
      ensures ok == old(Load(dir.State())).LoadedAs?
      ensures ok ==> old(Load(dir.State())) == LoadedAs(data)
      ensures ok ==> (Valid() <==>
                if between.Some? then between.value in {Missing, Good(data)} else restore || old(dir.primary).Good? || old(dir.primary).Missing?)
    {
      ok := LoadFiles(restore);
      if between.Some? {
        dir.Replace(between.value);
      }
      if ok && !dir.primary.Missing? {
        stamp := Some(dir.stamp);
      }
    }

    method Refresh()
      requires Valid()
      modifies this`data, this`stamp, this`readErr
      ensures Valid() && data == old(Current()) && Current() == data
      ensures dir.primary.Good? ==> !readErr && stamp == Some(dir.stamp)
      ensures dir.primary.Bad? && old(stamp) != Some(dir.stamp) ==> readErr
      ensures dir.primary.Missing? || dir.primary.Special? ==> readErr == old(readErr)
    {
      if dir.primary.Missing? || stamp == Some(dir.stamp) {
        return;
      }
      match dir.primary {
        case Good(d) => data, stamp, readErr := d, Some(dir.stamp), false;
        case Bad => readErr := true;
        case Special =>
      }
    }

    method FlushData(f: Faults) returns (ok: bool)
      modifies this`stamp, this`readErr, dir
      ensures ok == (f.write.Replaced? && f.backup.Replaced?)
      ensures dir.State() == Flush(old(dir.State()), data, Reached(f))
      ensures dir.stamp == old(dir.stamp) + if f.write.NotReplaced? then 0 else 1
      ensures if f.write.Replaced? && f.stat then stamp == Some(dir.stamp) && !readErr
              else stamp == old(stamp) && readErr == old(readErr)
    {
      if f.write.NotReplaced? {
        return false;
      }
      dir.Replace(Good(data));
      if f.write.Unsynced? {
        return false;
      }
      if f.stat {
        stamp, readErr := Some(dir.stamp), false;
      }
      if !f.backup.NotReplaced? {
        dir.backup := Good(data);
      }
      ok := f.backup.Replaced?;
    }

    /** mutateLocked: the change is made to the newest contents, whoever wrote
        them, and on success both files hold the result. */
    method MutateLocked(apply: Data -> Data, f: Faults) returns (ok: bool)
      requires Valid()
      modifies this, dir
      ensures Valid() && ok == Succeeds(f)
      ensures f.lock ==> data == apply(old(Current())) && dirty == !ok
      ensures dir.State() == if f.lock then Flush(old(dir.State()), data, Reached(f)) else old(dir.State())
      ensures !f.lock ==> data == old(data) && dirty == old(dirty)
      ensures ok ==> Current() == data
    {
      if !f.lock {
        return false;
      }
      Refresh();
      data := apply(data);
      dirty := true;
      ok := FlushData(f);
      dirty := !ok;
    }

    /** update: the same for a callback that may fail; then nothing is written
        and the change is not in memory either. */
    method Update(fn: Data -> Option<Data>, f: Faults) returns (ok: bool)
      requires Valid()
      modifies this, dir
      ensures Valid()
      ensures ok == (Succeeds(f) && fn(old(Current())).Some?)
      ensures fn(old(Current())).None? || !f.lock ==>
                dir.State() == old(dir.State()) && dirty == old(dirty) && Current() == old(Current())
      ensures fn(old(Current())).Some? && f.lock ==>
                && data == fn(old(Current())).value && dirty == !ok
                && dir.State() == Flush(old(dir.State()), data, Reached(f))
      ensures ok ==> Current() == data
    {
      if !f.lock {
        return false;
      }
      Refresh();
      var work := fn(data);
      if work.None? {
        return false;
      }
      data := work.value;
      dirty := true;
      ok := FlushData(f);
      dirty := !ok;
    }

    method Put(collection: string, key: string, raw: string, f: Faults) returns (ok: bool)
      requires Valid()
      modifies this, dir
      ensures Valid() && ok == Succeeds(f)
      ensures ok ==> dir.primary == dir.backup == Good(old(Current())[Backends.Composite(collection, key) := raw])
    {
      var ck := Backends.Composite(collection, key);
      ok := MutateLocked(d => Apply(Op.Put(ck, raw), d), f);
    }

    method Del(collection: string, key: string, f: Faults) returns (ok: bool)
      requires Valid()
      modifies this, dir
      ensures Valid() && ok == Succeeds(f)
      ensures ok ==> dir.primary == dir.backup == Good(old(Current()) - {Backends.Composite(collection, key)})
    {
      var ck := Backends.Composite(collection, key);
      ok := MutateLocked(d => Apply(Op.Del(ck), d), f);
    }

    /** get: with a readable file, a clean process answers from the file. */
    method Get(collection: string, key: string) returns (r: Answer)
      requires Valid()
      modifies this`data, this`stamp, this`readErr
      ensures Valid() && data == old(Current())
      ensures r != Unreadable ==> r == Lookup(data, Backends.Composite(collection, key))
      ensures dir.primary.Good? && !dirty ==>
                r == Lookup(dir.primary.data, Backends.Composite(collection, key))
      ensures dir.primary.Bad? && !dirty ==> r == Unreadable
    {
      Refresh();
      if readErr {
        return Unreadable;
      }
      r := Lookup(data, Backends.Composite(collection, key));
    }

    /** list: the rows of the collection in key order, from the file likewise. */
    method List(collection: string) returns (rows: Option<seq<string>>)
      requires Valid()
      modifies this`data, this`stamp, this`readErr
      ensures Valid() && data == old(Current())
      ensures rows.Some? ==> Backends.FlatLists(data, collection, rows.value)
      ensures dir.primary.Good? && !dirty ==>
                rows.Some? && Backends.FlatLists(dir.primary.data, collection, rows.value)
      ensures dir.primary.Bad? && !dirty ==> rows.None?
    {
      Refresh();
      if readErr {
        return None;
      }
      var answer := Backends.FlatList(data, collection);
      rows := Some(answer);
    }

    /** close: a process with nothing unsaved writes nothing; one with an unsaved
        change writes it unless the file was replaced meanwhile, and then leaves
        the other process's records as they are. */
    method Close(f: Faults) returns (ok: bool)
      requires Valid()
      modifies this, dir
      ensures Valid()
      ensures !old(dirty) ==> ok && dir.State() == old(dir.State()) && data == old(data)
      ensures old(dirty) ==> ok == Succeeds(f)
      ensures old(dirty) && old(dir.primary).Good? && old(stamp) != Some(old(dir.stamp)) ==>
                dir.primary == old(dir.primary)
      ensures ok && old(dirty) ==> dir.primary == dir.backup == Good(old(Current()))
    {
      if !dirty {
        return true;
      }
      ok := MutateLocked(d => d, f);
    }
  }

  /** What another process does to the files leaves a process valid: it just is
      no longer in step until it refreshes. */
  twostate lemma OthersMayWrite(b: JsonBackend, new image: Image)
    requires old(b.Valid())
    requires b.dir.stamp > old(b.dir.stamp) && b.dir.primary == image
    requires unchanged(b)
    ensures b.Valid()
    ensures b.Current() == if image.Good? then image.data else old(b.data)
  {
  }

  function ImageOf(f: Option<File>): Image { if f.Some? then Good(f.value.data) else Missing }

  /** What a process of Store works on, as Current says of a JsonBackend. */
  function Base(s: Sys, p: nat): Data
    requires p in s.procs
  {
    var q := s.procs[p];
    Latest(ImageOf(s.file), if s.file.Some? then s.file.value.stamp else 0, q.data, q.stamp)
  }

  /** An uninterrupted call up to where it has refreshed. */
  function Turn(s: Sys, p: nat, op: Op): (r: Sys)
    requires At(s, p, Ready) && s.lock == None
    ensures Holds(r, p, Refreshed)
  {
    Do(Do(s, Lock(p, op)), Refresh(p))
  }

  /** And its flush, with everything going well. */
  function FlushSteps(s: Sys, p: nat): Sys
    requires Holds(s, p, Changed)
  {
    Do(Do(Do(s, Write(p)), Stamp(p, true)), Finish(p, Replaced))
  }

  /** The steps of one uninterrupted call of put, del or update. */
  function Call(s: Sys, p: nat, op: Op): Sys
    requires At(s, p, Ready) && s.lock == None
  {
    var s2 := Turn(s, p, op);
    if Refused(s2.history[|s2.history| - 1], s2.procs[p].data) then Do(s2, Refuse(p))
    else FlushSteps(Do(s2, Change(p)), p)
  }

  lemma RefreshFindsBase(s: Sys, p: nat, op: Op)
    requires At(s, p, Ready) && s.lock == None
    ensures var s2 := Turn(s, p, op);
            && s2.file == s.file && s2.done == s.done && s2.history == s.history + [op]
            && s2.procs[p].data == Base(s, p) == Base(s2, p)
  {
  }

  lemma FlushWritesMemory(s: Sys, p: nat)
    requires Holds(s, p, Changed)
    ensures var s' := FlushSteps(s, p);
            && s'.file.Some? && s'.file.value.data == s'.procs[p].data == s.procs[p].data
            && s'.procs[p].stamp == StampOf(s'.file) && At(s', p, Ready) && s'.lock == None
            && s'.history == s.history && s'.done == s.done + {|s.history| - 1}
  {
  }

  /** The steps of Store amount to what Update promises: the same base, the same
      new file, nothing at all when the callback fails. */
  lemma CallIsUpdate(s: Sys, p: nat, op: Op)
    requires At(s, p, Ready) && s.lock == None
    ensures var s', base := Call(s, p, op), Base(s, p);
            && s'.lock == None && s'.history == s.history + [op] && At(s', p, Ready)
            && (Refused(op, base) ==>
                  s'.file == s.file && s'.done == s.done && s'.procs[p].data == base && Base(s', p) == base)
            && (!Refused(op, base) ==>
                  && s'.file.Some? && s'.file.value.data == s'.procs[p].data == Base(s', p) == Apply(op, base)
                  && s'.procs[p].stamp == StampOf(s'.file) && s'.done == s.done + {|s.history|})
  {
    RefreshFindsBase(s, p, op);
    if !Refused(op, Base(s, p)) {
      FlushWritesMemory(Do(Turn(s, p, op), Change(p)), p);
    }
  }
}
