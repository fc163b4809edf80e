/** Detection of repeated packets (src/csp_dedup.c): a ring of checksums scanned backwards with an early
    exit, against a scan of everything accepted so far. */
module Dedup {
  import opened Bytes
  import opened Crc32c
  import opened CspId

  const COUNT := 16
  const WINDOW := 100

  datatype Seen = Seen(crc: bv32, time: int)

  predicate Matches(s: Seen, now: Seen) {
    s.crc == now.crc && now.time <= s.time + 100
  }

  // ---- the promise ----

  /** The same checksum among the last fifteen packets accepted, at most 100 ms ago. */
  predicate Repeated(accepted: seq<Seen>, now: Seen) {
    exists k :: 0 <= k < |accepted| && |accepted| - 16 < k && Matches(accepted[k], now)
  }

  /** Times never decrease. */
  predicate Monotone(h: seq<Seen>) {
    forall i, j :: 0 <= i < j < |h| ==> h[i].time <= h[j].time
  }

  // ---- the ring ----

  /** The zeroed arrays read as sixteen packets accepted at time zero. */
  function Boot(n: nat): (h: seq<Seen>)
    ensures |h| == n && forall i :: 0 <= i < n ==> h[i] == Seen(0, 0)
  {
    if n == 0 then [] else Boot(n - 1) + [Seen(0, 0)]
  }

  class Ring {
    const crcs: array<bv32>
    const times: array<int>
    var next: nat
    /** The packets accepted since start-up. */
    ghost var accepted: seq<Seen>

    ghost predicate Valid()
      reads this, crcs, times
    {
      && crcs.Length == times.Length == COUNT && crcs != times as object
      && next == |accepted| % COUNT
      && Holds(Boot(COUNT) + accepted)
      && Monotone(Boot(COUNT) + accepted)
    }

    /** The last sixteen entries of a history lie in the ring. */
    ghost predicate Holds(h: seq<Seen>)
      requires crcs.Length == times.Length == COUNT
      reads crcs, times
    {
      forall k :: 0 <= k < |h| && |h| - COUNT <= k ==> Seen(crcs[k % COUNT], times[k % COUNT]) == h[k]
    }

    constructor ()
      ensures Valid() && accepted == [] && fresh(crcs) && fresh(times)
    {
      crcs := new bv32[COUNT](i => 0);
      times := new int[COUNT](i => 0);
      next := 0;
      accepted := [];
      new;
      assert Boot(COUNT) + accepted == Boot(COUNT);
    }

    /** csp_dedup_is_duplicate. */
    method IsDuplicate(v: Version, p: Packet, time: int) returns (dup: bool)
      requires Valid() && time >= 0
      requires accepted != [] ==> time >= accepted[|accepted| - 1].time
      modifies this, crcs, times
      ensures Valid()
      ensures var now := Seen(Checksum(Header(v, p.id) + p.data), time);
              && dup == Repeated(Boot(COUNT) + old(accepted), now)
              && accepted == if dup then old(accepted) else old(accepted) + [now]
    {
      hide Checksum, Header;
      dup := Check(Checksum(Header(v, p.id) + p.data), time);
    }

    method Check(crc: bv32, time: int) returns (dup: bool)
      requires Valid() && time >= 0
      requires accepted != [] ==> time >= accepted[|accepted| - 1].time
      modifies this, crcs, times
      ensures Valid()
      ensures dup == Repeated(Boot(COUNT) + old(accepted), Seen(crc, time))
      ensures accepted == if dup then old(accepted) else old(accepted) + [Seen(crc, time)]
    {
      hide Repeated, Boot, Monotone;
      ghost var h := Boot(COUNT) + accepted;
      SameNext(|accepted|);
      SameNext(|accepted| + 1);
      var now := Seen(crc, time);
      dup := Scan(crc, time);
      if dup { return; }
      assert h[|h| - 1].time <= time;
      StillMonotone(h, now);
      assert Boot(COUNT) + (accepted + [now]) == h + [now];
      Insert(h, now);
      accepted := accepted + [now];
    }

    method Insert(ghost h: seq<Seen>, now: Seen)
      requires crcs.Length == times.Length == COUNT && crcs != times as object
      requires |h| >= COUNT && next == |h| % COUNT && Holds(h)
      modifies this`next, crcs, times
      ensures next == (|h| + 1) % COUNT && Holds(h + [now])
    {
      var at := next;
      forall k | |h| - COUNT < k < |h| ensures k % COUNT != at {
        OtherSlot(|h|, k);
      }
      crcs[next] := now.crc;
      times[next] := now.time;
      next := (next + 1) % COUNT;
    }

    /** The backward scan. */
    method Scan(crc: bv32, time: int) returns (dup: bool)
      requires Valid()
      ensures dup == Repeated(Boot(COUNT) + accepted, Seen(crc, time))
    {
      hide Repeated, Monotone, Boot;
      ghost var h := Boot(COUNT) + accepted;
      ghost var now := Seen(crc, time);
      ghost var k := |h| - 1;
      Before(|h|);
      SameNext(|accepted|);
      var i := (next + COUNT - 1) % COUNT;
      while i != next
        invariant |h| - COUNT <= k < |h| && i == k % COUNT && next == |h| % COUNT
        invariant forall j :: k < j < |h| ==> !Matches(h[j], now)
        decreases k
      {
        Slots(|h|, k);
        Before(k);
        assert Seen(crcs[i], times[i]) == h[k];
        if time > times[i] + WINDOW {
          TooOld(h, now, k);
          return false;
        }
        if crc == crcs[i] {
          Found(h, now, k);
          return true;
        }
        i := (i + COUNT - 1) % COUNT;
        k := k - 1;
      }
      SameSlot(|h|, k);
      Exhausted(h, now);
      dup := false;
    }
  }

  lemma Before(k: int)
    requires k >= 1
    ensures (k % COUNT + COUNT - 1) % COUNT == (k - 1) % COUNT
  {
  }

  lemma SameNext(n: nat)
    ensures (COUNT + n) % COUNT == n % COUNT
  {
  }

  lemma OtherSlot(n: nat, k: int)
    requires n - COUNT < k < n
    ensures k % COUNT != n % COUNT
  {
  }

  lemma Slots(n: nat, k: int)
    requires n >= COUNT && n - COUNT <= k < n && k % COUNT != n % COUNT
    ensures k > n - COUNT
  {
  }

  lemma SameSlot(n: nat, k: int)
    requires n >= COUNT && n - COUNT <= k < n && k % COUNT == n % COUNT
    ensures k == n - COUNT
  {
  }

  lemma Found(h: seq<Seen>, now: Seen, k: int)
    requires |h| - COUNT < k < |h| && 0 <= k && Matches(h[k], now)
    ensures Repeated(h, now)
  {
  }

  lemma Exhausted(h: seq<Seen>, now: Seen)
    requires forall j :: 0 <= j < |h| && |h| - COUNT < j ==> !Matches(h[j], now)
    ensures !Repeated(h, now)
  {
  }

  /** The early exit loses nothing: what came before an entry that is too old is older still. */
  lemma TooOld(h: seq<Seen>, now: Seen, k: int)
    requires Monotone(h) && 0 <= k < |h| && now.time > h[k].time + WINDOW
    requires forall j :: k < j < |h| ==> !Matches(h[j], now)
    ensures !Repeated(h, now)
  {
    forall j | 0 <= j < |h| ensures !Matches(h[j], now) {
      if j < k { assert h[j].time <= h[k].time; }
    }
  }

  lemma StillMonotone(h: seq<Seen>, now: Seen)
    requires Monotone(h) && (h != [] ==> h[|h| - 1].time <= now.time)
    ensures Monotone(h + [now])
  {
    forall i | 0 <= i < |h| ensures h[i].time <= now.time {
      if i < |h| - 1 { assert h[i].time <= h[|h| - 1].time; }
    }
  }

  // ---- the ring against the promise ----

  /** The ring answers as promised except for a packet with checksum zero in the first 100 ms after
      start-up, before fifteen packets have been accepted: that one is always called a repeat. */
  lemma AnswersExactly(accepted: seq<Seen>, now: Seen)
    ensures Repeated(Boot(COUNT) + accepted, now) <==>
            Repeated(accepted, now) || (now.crc == 0 && now.time <= 100 && |accepted| < 15)
  {
    hide Boot;
    var h := Boot(COUNT) + accepted;
    if Repeated(h, now) {
      var k :| 0 <= k < |h| && |h| - COUNT < k && Matches(h[k], now);
      if k >= COUNT {
        assert h[k] == accepted[k - COUNT];
        assert Matches(accepted[k - COUNT], now);
      }
    }
    if Repeated(accepted, now) {
      var k :| 0 <= k < |accepted| && |accepted| - COUNT < k && Matches(accepted[k], now);
      assert h[k + COUNT] == accepted[k];
      assert Matches(h[k + COUNT], now);
    }
    if now.crc == 0 && now.time <= WINDOW && |accepted| < COUNT - 1 {
      assert Matches(h[COUNT - 1], now);
    }
  }

  /** Such packets exist: under every header some four data bytes have checksum zero, so within 100 ms of
      start-up the very first packet can be refused as a repeat. */
  lemma FalseRepeat(v: Version, id: Id, time: int) returns (data: seq<byte>)
    requires 0 <= time <= WINDOW
    ensures |data| == 4 && Checksum(Header(v, id) + data) == 0
    ensures var now := Seen(Checksum(Header(v, id) + data), time);
            Repeated(Boot(COUNT) + [], now) && !Repeated([], now)
  {
    hide Checksum, Header, Boot, Repeated;
    data := ChecksumReach(Header(v, id), 0);
    var now := Seen(Checksum(Header(v, id) + data), time);
    AnswersExactly([], now);
    Exhausted([], now);
  }

  /** The answers to a run of packets, and what has been accepted after it. */
  function RingRun(accepted: seq<Seen>, run: seq<Seen>): (seq<Seen>, seq<bool>)
    decreases |run|
  {
    if run == [] then (accepted, [])
    else
      var dup := Repeated(Boot(COUNT) + accepted, run[0]);
      var rest := RingRun(if dup then accepted else accepted + [run[0]], run[1..]);
      (rest.0, [dup] + rest.1)
  }

  function PromisedRun(accepted: seq<Seen>, run: seq<Seen>): (seq<Seen>, seq<bool>)
    decreases |run|
  {
    if run == [] then (accepted, [])
    else
      var dup := Repeated(accepted, run[0]);
      var rest := PromisedRun(if dup then accepted else accepted + [run[0]], run[1..]);
      (rest.0, [dup] + rest.1)
  }

  /** On every run without such a packet the ring and a scan of the whole history agree throughout. */
  lemma {:induction false} RunsAgree(accepted: seq<Seen>, run: seq<Seen>)
    requires forall i :: 0 <= i < |run| ==> run[i].crc != 0 || run[i].time > WINDOW
    ensures RingRun(accepted, run) == PromisedRun(accepted, run)
    decreases |run|
  {
    hide Boot, Repeated;
    if run != [] {
      AnswersExactly(accepted, run[0]);
      RunsAgree(if Repeated(accepted, run[0]) then accepted else accepted + [run[0]], run[1..]);
    }
  }
}
