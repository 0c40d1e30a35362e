/** Choosing which cache slots to reclaim: one pass over the access times that keeps the sixteen
    oldest candidates seen so far, with a pointer to the youngest of them. */
module Victims {

  const MAXATONCE: nat := 16

  /** What the pass reads of a slot.  A slot without a cache entry in core has no known bucket
      and no references. */
  datatype Resident = Absent | Present(bucket: nat, refCount: nat)
  datatype Slot = Slot(dataMod: bool, free: bool, discarded: bool, seen: bool, resident: Resident, time: nat)

  /** The slot may be reclaimed in this phase. */
  predicate Eligible(s: Slot, phase: nat, bucket: nat) {
    && !s.dataMod && !s.free && !s.discarded && !s.seen
    && (s.resident.Present? ==> (s.resident.bucket == bucket || phase >= 4) && s.resident.refCount == 0)
  }

  ghost predicate Chosen(slots: seq<Slot>, n: nat, phase: nat, bucket: nat, v: seq<nat>) {
    && |v| <= MAXATONCE && n <= |slots|
    && (forall k | 0 <= k < |v| :: v[k] < n && Eligible(slots[v[k]], phase, bucket))
    && (forall j, k | 0 <= j < k < |v| :: v[j] != v[k])
  }

  /** Nobody was passed over for someone younger, or while there was room. */
  ghost predicate Oldest(slots: seq<Slot>, n: nat, phase: nat, bucket: nat, v: seq<nat>)
    requires Chosen(slots, n, phase, bucket, v)
  {
    forall i: nat | i < n && Eligible(slots[i], phase, bucket) && i !in v ::
      |v| == MAXATONCE && forall k | 0 <= k < |v| :: slots[v[k]].time <= slots[i].time
  }

  /** `p` is where the youngest victim stands and `t` is its time. */
  ghost predicate Youngest(slots: seq<Slot>, v: seq<nat>, p: nat, t: nat)
    requires forall k | 0 <= k < |v| :: v[k] < |slots|
  {
    && (v != [] ==> p < |v| && slots[v[p]].time == t)
    && (v == [] ==> p == 0 && t == 0)
    && forall k | 0 <= k < |v| :: slots[v[k]].time <= t
  }

  lemma AppendVictim(slots: seq<Slot>, i: nat, phase: nat, bucket: nat, v: seq<nat>)
    requires i < |slots| && Chosen(slots, i, phase, bucket, v) && Oldest(slots, i, phase, bucket, v)
    requires |v| < MAXATONCE && Eligible(slots[i], phase, bucket)
    ensures Chosen(slots, i + 1, phase, bucket, v + [i]) && Oldest(slots, i + 1, phase, bucket, v + [i])
  {
    assert forall x | x in v :: x in v + [i];
    assert i in v + [i];
  }

  lemma ReplaceVictim(slots: seq<Slot>, i: nat, phase: nat, bucket: nat, v: seq<nat>, p: nat, t: nat)
    requires i < |slots| && Chosen(slots, i, phase, bucket, v) && Oldest(slots, i, phase, bucket, v)
    requires |v| == MAXATONCE && Eligible(slots[i], phase, bucket) && slots[i].time < t
    requires (forall k | 0 <= k < |v| :: v[k] < |slots|) && Youngest(slots, v, p, t)
    ensures p < |v|
    ensures Chosen(slots, i + 1, phase, bucket, v[p := i]) && Oldest(slots, i + 1, phase, bucket, v[p := i])
  {
    var v' := v[p := i];
    assert v'[p] == i;
    forall x: nat | x < i + 1 && Eligible(slots[x], phase, bucket) && x !in v'
      ensures forall k | 0 <= k < |v'| :: slots[v'[k]].time <= slots[x].time
    {
      if x in v {
        assert forall k | 0 <= k < |v| && k != p :: v'[k] == v[k];
        assert x == v[p];
      }
    }
  }

  lemma PassVictim(slots: seq<Slot>, i: nat, phase: nat, bucket: nat, v: seq<nat>, p: nat, t: nat)
    requires i < |slots| && Chosen(slots, i, phase, bucket, v) && Oldest(slots, i, phase, bucket, v)
    requires Youngest(slots, v, p, t)
    requires !Eligible(slots[i], phase, bucket) || (|v| == MAXATONCE && slots[i].time >= t)
    ensures Chosen(slots, i + 1, phase, bucket, v) && Oldest(slots, i + 1, phase, bucket, v)
  {
  }

  lemma AppendYoungest(slots: seq<Slot>, i: nat, v: seq<nat>, p: nat, t: nat)
    requires i < |slots| && (forall k | 0 <= k < |v| :: v[k] < |slots|) && Youngest(slots, v, p, t)
    ensures if slots[i].time > t then Youngest(slots, v + [i], |v|, slots[i].time) else Youngest(slots, v + [i], p, t)
  {
  }

  lemma YoungestIsOne(slots: seq<Slot>, v: seq<nat>, p: nat, t: nat)
    requires (forall k | 0 <= k < |v| :: v[k] < |slots|) && Youngest(slots, v, p, t) && v != []
    ensures p < |v| && slots[v[p]].time == t
  {
  }

  /** Look again for the youngest victim, after the one at j has been replaced. */
  method Recompute(slots: seq<Slot>, victims: array<nat>, victimTimes: array<nat>, j: nat)
    returns (maxVictimPtr: nat, maxVictimTime: nat)
    requires victims.Length == victimTimes.Length == MAXATONCE && j < MAXATONCE
    requires forall k | 0 <= k < MAXATONCE :: victims[k] < |slots| && victimTimes[k] == slots[victims[k]].time
    ensures Youngest(slots, victims[..], maxVictimPtr, maxVictimTime)
  {
    maxVictimPtr := j;
    maxVictimTime := victimTimes[j];
    for m := 0 to MAXATONCE
      invariant maxVictimPtr < MAXATONCE && victimTimes[maxVictimPtr] == maxVictimTime
      invariant forall k | 0 <= k < m :: victimTimes[k] <= maxVictimTime
    {
      if maxVictimTime < victimTimes[m] {
        maxVictimTime := victimTimes[m];
        maxVictimPtr := m;
      }
    }
  }

  /** The victims of one pass are the oldest eligible slots, at most sixteen; the pointer to the
      youngest is always one of them, so the "getdownd local" panic cannot happen. */
  method SelectVictims(slots: seq<Slot>, phase: nat, bucket: nat)
    returns (victims: array<nat>, victimPtr: nat, maxVictimPtr: nat, maxVictimTime: nat)
    ensures fresh(victims) && victimPtr <= victims.Length == MAXATONCE
    ensures Chosen(slots, |slots|, phase, bucket, victims[..victimPtr])
    ensures Oldest(slots, |slots|, phase, bucket, victims[..victimPtr])
    ensures Youngest(slots, victims[..victimPtr], maxVictimPtr, maxVictimTime)
  {
    hide Oldest, Chosen, Youngest, Eligible;
    victims := new nat[MAXATONCE];
    var victimTimes := new nat[MAXATONCE];
    maxVictimPtr, victimPtr, maxVictimTime := 0, 0, 0;
    NothingPassedOver(slots, phase, bucket);
    assert victims[..0] == [];
    var i := 0;
    while i < |slots|
      invariant i <= |slots| && victimPtr <= MAXATONCE
      invariant forall k | 0 <= k < victimPtr :: victims[k] < i && victimTimes[k] == slots[victims[k]].time
      invariant Chosen(slots, i, phase, bucket, victims[..victimPtr])
      invariant Oldest(slots, i, phase, bucket, victims[..victimPtr])
      invariant Youngest(slots, victims[..victimPtr], maxVictimPtr, maxVictimTime)
    {
      ghost var v := victims[..victimPtr];
      var vtime := slots[i].time;
      if !Eligible(slots[i], phase, bucket) {
        PassVictim(slots, i, phase, bucket, v, maxVictimPtr, maxVictimTime);
      } else if victimPtr < MAXATONCE {
        AppendVictim(slots, i, phase, bucket, v);
        AppendYoungest(slots, i, v, maxVictimPtr, maxVictimTime);
        victims[victimPtr] := i;
        victimTimes[victimPtr] := vtime;
        if vtime > maxVictimTime {
          maxVictimTime := vtime;
          maxVictimPtr := victimPtr;
        }
        victimPtr := victimPtr + 1;
        assert victims[..victimPtr] == v + [i];
      } else if vtime < maxVictimTime {
        ReplaceVictim(slots, i, phase, bucket, v, maxVictimPtr, maxVictimTime);
        YoungestIsOne(slots, v, maxVictimPtr, maxVictimTime);
        var j := maxVictimPtr;
        assert j != victimPtr;
        victims[j] := i;
        victimTimes[j] := vtime;
        maxVictimPtr, maxVictimTime := Recompute(slots, victims, victimTimes, j);
        assert victims[..victimPtr] == v[j := i] && victims[..] == victims[..victimPtr];
      } else {
        PassVictim(slots, i, phase, bucket, v, maxVictimPtr, maxVictimTime);
      }
      i := i + 1;
    }
  }

  lemma NothingPassedOver(slots: seq<Slot>, phase: nat, bucket: nat)
    ensures Chosen(slots, 0, phase, bucket, []) && Oldest(slots, 0, phase, bucket, [])
    ensures Youngest(slots, [], 0, 0)
  {
  }

  /** The specification pins the victims down as far as times can: two choices that meet it
      either agree or differ only in slots of one and the same, youngest, time. */
  lemma OldestIsDetermined(slots: seq<Slot>, phase: nat, bucket: nat, v: seq<nat>, w: seq<nat>, x: nat, y: nat)
    requires Chosen(slots, |slots|, phase, bucket, v) && Oldest(slots, |slots|, phase, bucket, v)
    requires Chosen(slots, |slots|, phase, bucket, w) && Oldest(slots, |slots|, phase, bucket, w)
    requires x in v && x !in w && y in w && y !in v
    ensures |v| == |w| == MAXATONCE && slots[x].time == slots[y].time
  {
  }
}
