/** What a clean report means when only the holder of the key can produce MACs:
    the chained part of the log is a contiguous slice of one sealed history. */
module AuditSoundness {
  import opened ChainCodec
  import opened AuditVerify

  /** A record as it was put under the MAC. */
  datatype Sealed = Sealed(seqNo: nat, prev: string, event: string)

  function MacOf(env: Env, r: Sealed): string { env.mac(r.seqNo, r.prev, r.event) }

  /** Record i was sealed on top of record i - 1. */
  predicate FollowsAt(env: Env, h: seq<Sealed>, i: int) {
    0 < i < |h| && h[i].seqNo == SeqSucc(h[i - 1].seqNo) && h[i].prev == MacOf(env, h[i - 1])
  }

  /** One run of the chain: it starts at record 1 and every later record is
      sealed on top of the one before. */
  ghost predicate Honest(env: Env, h: seq<Sealed>) {
    && (forall i | 0 <= i < |h| :: h[i].seqNo < TWO64 && '\n' !in h[i].event)
    && (h != [] ==> h[0].seqNo == 1 && h[0].prev == "")
    && (forall i | 0 < i < |h| :: FollowsAt(env, h, i))
  }

  /** Everything ever sealed under the key: any number of chain starts. */
  ghost predicate Histories(env: Env, hs: seq<seq<Sealed>>) {
    forall s | 0 <= s < |hs| :: Honest(env, hs[s])
  }

  /** r was sealed, as record i of history s. */
  ghost predicate SealedAt(hs: seq<seq<Sealed>>, s: int, i: int, r: Sealed) {
    0 <= s < |hs| && 0 <= i < |hs[s]| && hs[s][i] == r
  }

  ghost predicate WasSealed(hs: seq<seq<Sealed>>, r: Sealed) {
    exists s, i :: SealedAt(hs, s, i, r)
  }

  /** No two different sealed records share a MAC. */
  ghost predicate CollisionFree(env: Env, hs: seq<seq<Sealed>>) {
    forall a, b | WasSealed(hs, a) && WasSealed(hs, b) && MacOf(env, a) == MacOf(env, b) :: a == b
  }

  function AsSealed(r: Split): Sealed
    requires r.Chained?
  {
    Sealed(r.st.seqNo, r.st.prev, r.event)
  }

  /** Every MAC in the log that checks out belongs to a record the sealer made. */
  ghost predicate Authentic(env: Env, hs: seq<seq<Sealed>>, rs: seq<Split>) {
    forall i | 0 <= i < |rs| && MacOk(env, rs[i]) :: WasSealed(hs, AsSealed(rs[i]))
  }

  function Payload(r: Sealed): string { Message(r.seqNo, r.prev, r.event) }

  /** Unforgeability as HMAC gives it: every text in the log whose MAC checks
      out was once given to HMAC by the sealer. */
  ghost predicate Unforgeable(env: Env, hs: seq<seq<Sealed>>, rs: seq<Split>) {
    forall i | 0 <= i < |rs| && MacOk(env, rs[i]) ::
      exists r :: WasSealed(hs, r) && Payload(r) == Payload(AsSealed(rs[i]))
  }

  /** Lines come from a text file, so event bytes hold no line break. */
  predicate SingleLines(rs: seq<Split>) {
    forall i | 0 <= i < |rs| && rs[i].Chained? :: '\n' !in rs[i].event
  }

  predicate IsRecord(env: Env, r: Split, h: Sealed) {
    r.Chained? && AsSealed(r) == h && r.st.mac == MacOf(env, h)
  }

  /** rs from k on is h[a..] cut to the same length. */
  predicate SliceAt(env: Env, rs: seq<Split>, k: nat, h: seq<Sealed>, a: int) {
    && k <= |rs| && 0 <= a && a + |rs| - k <= |h|
    && forall i | k <= i < |rs| :: IsRecord(env, rs[i], h[a + i - k])
  }

  /** A slice may start past record 1 only if an audit.pruned record inside it
      names the last record missing before it. */
  ghost predicate Accountable(env: Env, rs: seq<Split>, k: nat, h: seq<Sealed>, a: int)
    requires 0 <= a <= |h|
  {
    a == 0 || exists j | k <= j < |rs| ::
      Claims(env, rs[j], env.key(h[a - 1].seqNo, MacOf(env, h[a - 1])))
  }

  lemma PrevHasNoBreak(env: Env, h: seq<Sealed>, i: nat)
    requires HexMacs(env) && Honest(env, h) && i < |h|
    ensures '\n' !in h[i].prev
    ensures h[i].prev == "" <==> i == 0
    ensures Genesis(ChainState(h[i].seqNo, h[i].prev, MacOf(env, h[i]))) <==> i == 0
  {
    if i > 0 {
      assert FollowsAt(env, h, i);
      assert IsHex(h[i].prev) && h[i].prev != "";
    }
  }

  /** The framing of the MAC input turns sealed texts into sealed records. */
  lemma AuthenticByFraming(env: Env, hs: seq<seq<Sealed>>, rs: seq<Split>)
    requires HexMacs(env) && Histories(env, hs) && Unforgeable(env, hs, rs) && SingleLines(rs)
    ensures Authentic(env, hs, rs)
  {
    forall i | 0 <= i < |rs| && MacOk(env, rs[i])
      ensures WasSealed(hs, AsSealed(rs[i]))
    {
      var r := AsSealed(rs[i]);
      var h :| WasSealed(hs, h) && Payload(h) == Payload(r);
      var s, j :| SealedAt(hs, s, j, h);
      PrevHasNoBreak(env, hs[s], j);
      FramingInjective(h.seqNo, h.prev, h.event, r.seqNo, r.prev, r.event);
    }
  }

  /** Whatever links to a sealed record is its sealed predecessor. */
  lemma StepBack(env: Env, hs: seq<seq<Sealed>>, r: Split, s: nat, a: nat)
    requires HexMacs(env) && Histories(env, hs) && CollisionFree(env, hs)
    requires MacOk(env, r) && WasSealed(hs, AsSealed(r))
    requires s < |hs| && a < |hs[s]| && hs[s][a].prev == r.st.mac
    ensures a > 0 && IsRecord(env, r, hs[s][a - 1])
  {
    PrevHasNoBreak(env, hs[s], a);
    assert FollowsAt(env, hs[s], a);
    assert MacOf(env, AsSealed(r)) == hs[s][a].prev != "";
    assert SealedAt(hs, s, a - 1, hs[s][a - 1]);
    assert WasSealed(hs, hs[s][a - 1]);
  }

  lemma SliceCons(env: Env, rs: seq<Split>, k: nat, h: seq<Sealed>, a: nat)
    requires k < |rs| && a > 0 && SliceAt(env, rs, k + 1, h, a) && IsRecord(env, rs[k], h[a - 1])
    ensures SliceAt(env, rs, k, h, a - 1)
  {
  }

  lemma NewestIsSlice(env: Env, hs: seq<seq<Sealed>>, rs: seq<Split>) returns (s: nat, a: nat)
    requires Authentic(env, hs, rs) && rs != [] && MacOk(env, rs[|rs| - 1])
    ensures s < |hs| && SliceAt(env, rs, |rs| - 1, hs[s], a)
  {
    var r := rs[|rs| - 1];
    s, a :| SealedAt(hs, s, a, AsSealed(r));
    assert IsRecord(env, r, hs[s][a]);
  }

  lemma OneBefore(env: Env, hs: seq<seq<Sealed>>, rs: seq<Split>, k: nat, s: nat, a: nat)
    requires HexMacs(env) && Histories(env, hs) && CollisionFree(env, hs) && Authentic(env, hs, rs)
    requires k + 1 < |rs| && MacOk(env, rs[k]) && LinkedAt(rs, k + 1)
    requires s < |hs| && SliceAt(env, rs, k + 1, hs[s], a)
    ensures a > 0 && SliceAt(env, rs, k, hs[s], a - 1)
  {
    assert IsRecord(env, rs[k + 1], hs[s][a]);
    StepBack(env, hs, rs[k], s, a);
    SliceCons(env, rs, k, hs[s], a);
  }

  lemma OneDown(env: Env, hs: seq<seq<Sealed>>, rs: seq<Split>, k: nat, j: nat, s: nat, a: nat)
    requires HexMacs(env) && Histories(env, hs) && CollisionFree(env, hs) && Authentic(env, hs, rs)
    requires k < j < |rs| && Segment(env, rs, k)
    requires s < |hs| && SliceAt(env, rs, j, hs[s], a)
    ensures a > 0 && SliceAt(env, rs, j - 1, hs[s], a - 1)
  {
    assert MacOk(env, rs[j - 1]) && LinkedAt(rs, j - 1 + 1);
    OneBefore(env, hs, rs, j - 1, s, a);
  }

  /** Backwards from record j: each link is the MAC of a sealed text, and by
      collision freedom that text is the predecessor in the same history. */
  lemma {:induction false} Descend(env: Env, hs: seq<seq<Sealed>>, rs: seq<Split>, k: nat, j: nat, s: nat, last: nat)
      returns (a: nat)
    requires HexMacs(env) && Histories(env, hs) && CollisionFree(env, hs) && Authentic(env, hs, rs)
    requires k <= j < |rs| && Segment(env, rs, k)
    requires s < |hs| && SliceAt(env, rs, j, hs[s], last)
    ensures SliceAt(env, rs, k, hs[s], a)
    decreases j - k
  {
    if j == k {
      a := last;
    } else {
      OneDown(env, hs, rs, k, j, s, last);
      a := Descend(env, hs, rs, k, j - 1, s, last - 1);
    }
  }

  /** An unbroken segment is a slice of one sealed history. */
  lemma FindSlice(env: Env, hs: seq<seq<Sealed>>, rs: seq<Split>, k: nat) returns (s: nat, a: nat)
    requires HexMacs(env) && Histories(env, hs) && CollisionFree(env, hs)
    requires Authentic(env, hs, rs)
    requires k < |rs| && Segment(env, rs, k)
    ensures s < |hs| && SliceAt(env, rs, k, hs[s], a)
  {
    assert MacOk(env, rs[|rs| - 1]);
    var last;
    s, last := NewestIsSlice(env, hs, rs);
    a := Descend(env, hs, rs, k, |rs| - 1, s, last);
  }

  /** Soundness: a clean log is an unchained prefix followed by a contiguous
      slice of one sealed history that starts at record 1 or at a boundary
      which a sealed audit.pruned record inside the slice names. */
  lemma CleanIsSlice(env: Env, hs: seq<seq<Sealed>>, rs: seq<Split>) returns (s: nat, a: nat)
    requires HexMacs(env) && Histories(env, hs) && CollisionFree(env, hs)
    requires Unforgeable(env, hs, rs) && SingleLines(rs)
    requires Clean(env, rs) && Leading(rs) < |rs|
    ensures s < |hs| && SliceAt(env, rs, Leading(rs), hs[s], a)
    ensures Accountable(env, rs, Leading(rs), hs[s], a)
  {
    var k := Leading(rs);
    AuthenticByFraming(env, hs, rs);
    s, a := FindSlice(env, hs, rs, k);
    assert IsRecord(env, rs[k], hs[s][a]);
    PrevHasNoBreak(env, hs[s], a);
    if a > 0 {
      BoundaryOfSlice(env, hs[s], a, rs[k]);
      var j :| 0 <= j < |rs| && Claims(env, rs[j], StartKey(env, rs[k].st));
      assert k <= j;
    }
  }

  lemma BoundaryOfSlice(env: Env, h: seq<Sealed>, a: nat, r: Split)
    requires Honest(env, h) && 0 < a < |h| && IsRecord(env, r, h[a])
    ensures StartKey(env, r.st) == env.key(h[a - 1].seqNo, MacOf(env, h[a - 1]))
  {
    assert FollowsAt(env, h, a);
  }

  lemma SliceIsSegment(env: Env, h: seq<Sealed>, rs: seq<Split>, k: nat, a: nat)
    requires HexMacs(env) && Honest(env, h) && SliceAt(env, rs, k, h, a)
    ensures Segment(env, rs, k)
  {
    forall i | k < i < |rs| ensures LinkedAt(rs, i) {
      assert IsRecord(env, rs[i - 1], h[a + i - 1 - k]) && IsRecord(env, rs[i], h[a + i - k]);
      assert FollowsAt(env, h, a + i - k);
      PrevHasNoBreak(env, h, a + i - k);
    }
  }

  /** Completeness of the same characterization: every such slice is clean, so
      the verifier's blind spot is exactly the removal of newest records. */
  lemma SliceIsClean(env: Env, h: seq<Sealed>, rs: seq<Split>, a: nat)
    requires HexMacs(env) && Honest(env, h)
    requires SliceAt(env, rs, Leading(rs), h, a) && Accountable(env, rs, Leading(rs), h, a)
    ensures Clean(env, rs)
  {
    var k := Leading(rs);
    SliceIsSegment(env, h, rs, k, a);
    if k < |rs| {
      assert IsRecord(env, rs[k], h[a]);
      if a > 0 {
        BoundaryOfSlice(env, h, a, rs[k]);
      }
    }
  }

  ghost predicate AccountableSlice(env: Env, hs: seq<seq<Sealed>>, rs: seq<Split>, s: int, a: int) {
    && 0 <= s < |hs| && SliceAt(env, rs, Leading(rs), hs[s], a)
    && Accountable(env, rs, Leading(rs), hs[s], a)
  }

  /** Both directions together. */
  lemma CleanExactly(env: Env, hs: seq<seq<Sealed>>, rs: seq<Split>)
    requires HexMacs(env) && Histories(env, hs) && CollisionFree(env, hs)
    requires Unforgeable(env, hs, rs) && SingleLines(rs)
    ensures Clean(env, rs) <==> Leading(rs) == |rs| || exists s, a :: AccountableSlice(env, hs, rs, s, a)
  {
    if Clean(env, rs) && Leading(rs) < |rs| {
      var s, a := CleanIsSlice(env, hs, rs);
      assert AccountableSlice(env, hs, rs, s, a);
    }
    if s, a :| AccountableSlice(env, hs, rs, s, a) {
      SliceIsClean(env, hs[s], rs, a);
    }
  }
}
