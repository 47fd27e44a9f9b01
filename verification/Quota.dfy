/** The shared quota tracker and the write handle that charges it. */
module Quota {
  import opened Text

  // ---- The tracker's figures -------------------------------------------------

  /** Limits of zero or less are unlimited. */
  datatype Figures = Figures(
    usedBytes: int, usedFiles: int, maxStorage: int, maxFiles: int,
    inflight: int, gen: nat, measured: bool)

  function Max(a: int, b: int): int { if a >= b then a else b }

  function Begin(t: Figures): Figures {
    t.(inflight := t.inflight + 1, gen := t.gen + 1)
  }

  function End(t: Figures): Figures {
    t.(inflight := Max(t.inflight - 1, 0), gen := t.gen + 1)
  }

  predicate CanGrow(t: Figures, n: int) {
    n <= 0 || t.maxStorage <= 0 || t.usedBytes + n <= t.maxStorage
  }

  function Grow(t: Figures, n: int): Figures {
    if n <= 0 then t else t.(usedBytes := t.usedBytes + n, gen := t.gen + 1)
  }

  function Shrink(t: Figures, n: int): Figures {
    if n <= 0 then t else t.(usedBytes := Max(t.usedBytes - n, 0), gen := t.gen + 1)
  }

  predicate CanCreate(t: Figures) {
    t.maxFiles <= 0 || t.usedFiles + 1 <= t.maxFiles
  }

  function Create(t: Figures): Figures {
    t.(usedFiles := t.usedFiles + 1, gen := t.gen + 1)
  }

  function RemoveFiles(t: Figures, n: int): Figures {
    if n <= 0 then t else t.(usedFiles := Max(t.usedFiles - n, 0), gen := t.gen + 1)
  }

  /** The commit of refresh adopts a walk that began at generation gen. */
  predicate MayAdopt(t: Figures, gen: nat, stuck: bool) {
    !(t.measured && (t.gen != gen || (t.inflight > 0 && !stuck)))
  }

  const MIN_STUCK_AGE := 600_000_000_000    // ten minutes in nanoseconds
  const STUCK_FACTOR := 10
  const MAX_INT64 := 0x7fff_ffff_ffff_ffff

  class Tracker {
    var usedBytes: int
    var usedFiles: int
    var maxStorage: int
    var maxFiles: int
    var inflight: int
    var gen: nat
    var measured: bool
    // When inflight last left zero; None is the zero time.
    var busySince: Option<int>
    var measuredAt: int

    /** The clock of a busy tracker runs exactly while changes are in flight. */
    predicate Valid()
      reads this
    {
      0 <= inflight && (busySince.Some? <==> inflight > 0)
    }

    function State(): Figures
      reads this
    {
      Figures(usedBytes, usedFiles, maxStorage, maxFiles, inflight, gen, measured)
    }

    constructor (maxStorage: int, maxFiles: int)
      ensures Valid() && State() == Figures(0, 0, maxStorage, maxFiles, 0, 0, false)
    {
      this.maxStorage, this.maxFiles := maxStorage, maxFiles;
      usedBytes, usedFiles, inflight, gen, measured := 0, 0, 0, 0, false;
      busySince, measuredAt := None, 0;
    }

    method BeginChange(now: int)
      requires Valid()
      modifies `inflight, `gen, `busySince
      ensures Valid() && State() == Begin(old(State()))
      ensures busySince == if old(inflight) == 0 then Some(now) else old(busySince)
    {
      if inflight == 0 {
        busySince := Some(now);
      }
      inflight := inflight + 1;
      gen := gen + 1;
    }

    method EndChange()
      requires Valid()
      modifies `inflight, `gen, `busySince
      ensures Valid() && State() == End(old(State()))
      ensures busySince == if old(inflight) <= 1 then None else old(busySince)
    {
      inflight := Max(inflight - 1, 0);
      if inflight == 0 {
        busySince := None;
      }
      gen := gen + 1;
    }

    /** stuckLocked: busy without a break for ten minutes and for ten intervals. */
    function Stuck(maxAge: int, now: int): (r: bool)
      requires Valid()
      reads this
      ensures r ==> inflight > 0 && maxAge > 0
                    && now - busySince.value >= MIN_STUCK_AGE && now - busySince.value >= maxAge * STUCK_FACTOR
    {
      if inflight == 0 || maxAge <= 0 then false
      else if maxAge > MAX_INT64 / STUCK_FACTOR then false
      else now - busySince.value >= Max(MIN_STUCK_AGE, maxAge * STUCK_FACTOR)
    }

    /** The first critical section of refresh: whether to walk, and what to
        remember of the tracker. */
    method Snapshot(maxAge: int, now: int) returns (walk: bool, g: nat, stuck: bool)
      requires Valid()
      ensures g == gen && stuck == Stuck(maxAge, now)
      ensures walk && measured ==> inflight == 0 || stuck
      ensures !walk ==> measured && (inflight > 0 || now - measuredAt < maxAge)
    {
      stuck := Stuck(maxAge, now);
      var busy := inflight > 0 && !stuck;
      g := gen;
      walk := !(measured && (busy || (maxAge > 0 && now - measuredAt < maxAge)));
    }

    /** The second one: adopt the walk, or keep the figures. */
    method Commit(g: nat, stuck: bool, bytes: int, files: int, now: int)
      modifies `usedBytes, `usedFiles, `measured, `measuredAt
      ensures State() == if MayAdopt(old(State()), g, stuck)
                         then old(State()).(usedBytes := bytes, usedFiles := files, measured := true)
                         else old(State())
      ensures measured && measuredAt == if MayAdopt(old(State()), g, stuck) then now else old(measuredAt)
    {
      if measured && (gen != g || (inflight > 0 && !stuck)) {
        return;
      }
      usedBytes, usedFiles, measured, measuredAt := bytes, files, true, now;
    }

    method OnGrow(n: int) returns (ok: bool)
      modifies `usedBytes, `gen
      ensures ok == CanGrow(old(State()), n)
      ensures State() == if ok then Grow(old(State()), n) else old(State())
    {
      if n <= 0 {
        return true;
      }
      if maxStorage > 0 && usedBytes + n > maxStorage {
        return false;
      }
      usedBytes := usedBytes + n;
      gen := gen + 1;
      return true;
    }

    method OnShrink(n: int)
      modifies `usedBytes, `gen
      ensures State() == Shrink(old(State()), n)
    {
      if n <= 0 {
        return;
      }
      usedBytes := Max(usedBytes - n, 0);
      gen := gen + 1;
    }

    method OnFileCreated() returns (ok: bool)
      modifies `usedFiles, `gen
      ensures ok == CanCreate(old(State()))
      ensures State() == if ok then Create(old(State())) else old(State())
    {
      if maxFiles > 0 && usedFiles + 1 > maxFiles {
        return false;
      }
      usedFiles := usedFiles + 1;
      gen := gen + 1;
      return true;
    }

    method OnFilesRemoved(n: int)
      modifies `usedFiles, `gen
      ensures State() == RemoveFiles(old(State()), n)
    {
      if n <= 0 {
        return;
      }
      usedFiles := Max(usedFiles - n, 0);
      gen := gen + 1;
    }
  }

  // ---- Write handles ------------------------------------------------------------

  function ProjectedGrowth(currentSize: int, offset: int, writeLen: int): (g: int)
    ensures g == Max(offset + writeLen, currentSize) - currentSize
  {
    if offset + writeLen <= currentSize then 0 else offset + writeLen - currentSize
  }

  /** The size of a stored file after n bytes were written at offset. */
  function StoredAfterWrite(size: nat, offset: nat, n: nat): nat {
    if n == 0 then size else Max(size, offset + n)
  }

  datatype Outcome = Done(n: nat) | TooLarge | OverQuota | Failed

  /** quotaFile. The backend's answers (how many bytes it wrote, whether it
      failed) are parameters of the methods. */
  class QuotaFile {
    const quota: Tracker
    const maxFileSize: int
    var size: nat
    var offset: nat
    ghost const sizeAtOpen: nat
    ghost var charged: int    // what this handle added to the tracker so far

    /** Exact accounting: whatever calls were made, the net charge is the
        growth of the file as the handle sees it. */
    ghost predicate Valid()
      reads this
    {
      charged == size - sizeAtOpen
    }

    constructor (quota: Tracker, maxFileSize: int, size: nat, offset: nat)
      ensures Valid() && this.quota == quota && this.maxFileSize == maxFileSize
      ensures this.size == this.sizeAtOpen == size && this.offset == offset && charged == 0
    {
      this.quota, this.maxFileSize, this.size, this.offset := quota, maxFileSize, size, offset;
      this.sizeAtOpen, this.charged := size, 0;
    }

    /** Write of len bytes of which the backend takes written. The tracker is
        charged before the backend is called and refunded for what it did not
        take. */
    method Write(len: nat, written: nat) returns (r: Outcome)
      requires Valid() && written <= len && 0 <= quota.usedBytes
      modifies this, quota`usedBytes, quota`gen
      ensures Valid() && 0 <= quota.usedBytes
      ensures charged - old(charged) == quota.usedBytes - old(quota.usedBytes)
      ensures r.TooLarge? <==> maxFileSize > 0 && old(offset) + len > maxFileSize
      ensures r.OverQuota? <==>
                !r.TooLarge? && !CanGrow(old(quota.State()), ProjectedGrowth(old(size), old(offset), len))
      ensures r.TooLarge? || r.OverQuota? ==>
                size == old(size) && offset == old(offset) && quota.State() == old(quota.State())
      ensures r.Done? ==> r.n == written && offset == old(offset) + written
                          && size == Max(old(size), old(offset) + written)
      ensures !r.Failed?
      ensures quota.State().(usedBytes := 0, gen := 0) == old(quota.State()).(usedBytes := 0, gen := 0)
    {
      if maxFileSize > 0 && offset + len > maxFileSize {
        return TooLarge;
      }
      var growth := ProjectedGrowth(size, offset, len);
      if growth > 0 {
        var ok := quota.OnGrow(growth);
        if !ok {
          return OverQuota;
        }
      }
      var previousSize := size;
      var actualEnd := offset + written;
      if actualEnd > size {
        size := actualEnd;
      }
      offset := actualEnd;
      var actualGrowth := size - previousSize;
      if growth > actualGrowth {
        quota.OnShrink(growth - actualGrowth);
      }
      charged := charged + actualGrowth;
      return Done(written);
    }

    method Read(n: nat)
      requires Valid()
      modifies this
      ensures Valid() && size == old(size) && charged == old(charged) && offset == old(offset) + n
    {
      offset := offset + n;
    }

    method Seek(next: nat, fails: bool)
      requires Valid()
      modifies this
      ensures Valid() && size == old(size) && charged == old(charged)
      ensures offset == if fails then old(offset) else next
    {
      if !fails {
        offset := next;
      }
    }

    /** Truncate. The accounting stays exact as long as the tracker counts at
        least the bytes that are cut off; otherwise it stops at zero. */
    method Truncate(newSize: nat, fails: bool) returns (r: Outcome)
      requires Valid() && 0 <= quota.usedBytes
      modifies this, quota`usedBytes, quota`gen
      ensures 0 <= quota.usedBytes
      ensures r.TooLarge? <==> maxFileSize > 0 && newSize > maxFileSize
      ensures r.OverQuota? <==> !r.TooLarge? && !CanGrow(old(quota.State()), newSize - old(size))
      ensures r.Failed? <==> !r.TooLarge? && !r.OverQuota? && fails
      ensures !r.Done? ==> size == old(size) && offset == old(offset) && quota.usedBytes == old(quota.usedBytes)
      ensures r.Done? ==> size == newSize && offset == (if old(offset) > newSize then newSize else old(offset))
                          && quota.usedBytes == Max(old(quota.usedBytes) + newSize - old(size), 0)
      ensures charged - old(charged) == quota.usedBytes - old(quota.usedBytes)
      ensures Valid() <==> !(r.Done? && old(quota.usedBytes) + newSize < old(size))
      ensures quota.State().(usedBytes := 0, gen := 0) == old(quota.State()).(usedBytes := 0, gen := 0)
    {
      ghost var before := quota.usedBytes;
      if maxFileSize > 0 && newSize > maxFileSize {
        return TooLarge;
      }
      var growth := 0;
      if newSize > size {
        growth := newSize - size;
        var ok := quota.OnGrow(growth);
        if !ok {
          return OverQuota;
        }
      }
      if fails {
        if growth > 0 {
          quota.OnShrink(growth);
        }
        return Failed;
      }
      if newSize < size {
        quota.OnShrink(size - newSize);
      }
      charged := charged + (quota.usedBytes - before);
      size := newSize;
      if offset > newSize {
        offset := newSize;
      }
      return Done(0);
    }
  }

  /** The size a handle tracks after a write is the stored size, except when a
      write past the end of the file stores no byte at all. */
  lemma TrackedSizeIsStoredSize(size: nat, offset: nat, n: nat)
    ensures Max(size, offset + n) == StoredAfterWrite(size, offset, n) <==> !(n == 0 && offset > size)
  {
  }
}
