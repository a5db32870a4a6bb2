/**
  Open addressing with linear probing and tombstones, on values. The file table
  and the process table of the shared mapping are both instances: the file table
  never holds a tombstone.
 */
module Probing {

  datatype Slot<+K, +V> = Vacant | Tombstone | Live(key: K, value: V)

  /** The slot `d` places after `home`, wrapping round a table of `n` slots. */
  function At(home: nat, d: nat, n: nat): (r: nat)
    requires home < n && d < n
    ensures r < n
  {
    if home + d < n then home + d else home + d - n
  }

  /** How far slot `p` lies after `home`: the inverse of At. */
  function Distance(home: nat, p: nat, n: nat): (d: nat)
    requires home < n && p < n
    ensures d < n && At(home, d, n) == p
  {
    if home <= p then p - home else p + n - home
  }

  predicate Stops<K(==), V>(slot: Slot<K, V>, key: K) {
    slot.Vacant? || (slot.Live? && slot.key == key)
  }

  /** The first distance from `d` on whose slot is vacant or holds `key`; the table size if none is. */
  function Stop<K(==), V>(slots: seq<Slot<K, V>>, home: nat, key: K, d: nat): (r: nat)
    requires home < |slots| && d <= |slots|
    ensures d <= r <= |slots|
    ensures forall j | d <= j < r :: !Stops(slots[At(home, j, |slots|)], key)
    ensures r < |slots| ==> Stops(slots[At(home, r, |slots|)], key)
    decreases |slots| - d
  {
    if d == |slots| || Stops(slots[At(home, d, |slots|)], key) then d
    else Stop(slots, home, key, d + 1)
  }

  ghost predicate Homed<K(!new)>(home: K -> nat, n: nat) {
    forall k :: home(k) < n
  }

  /** No two live slots share a key. */
  ghost predicate Distinct<K, V>(slots: seq<Slot<K, V>>) {
    forall i, j | 0 <= i < |slots| && 0 <= j < |slots| && slots[i].Live? && slots[j].Live? ::
      slots[i].key == slots[j].key ==> i == j
  }

  /** No vacant slot lies between the home of a live key and its slot. */
  ghost predicate Chained<K(!new), V>(slots: seq<Slot<K, V>>, home: K -> nat)
    requires Homed(home, |slots|)
  {
    forall i, d | 0 <= i < |slots| && slots[i].Live?
                  && 0 <= d < Distance(home(slots[i].key), i, |slots|) ::
      !slots[At(home(slots[i].key), d, |slots|)].Vacant?
  }

  ghost predicate WellFormed<K(!new), V>(slots: seq<Slot<K, V>>, home: K -> nat) {
    Homed(home, |slots|) && Distinct(slots) && Chained(slots, home)
  }

  /** The finite map the table stands for. */
  ghost function Contents<K, V>(slots: seq<Slot<K, V>>): map<K, V>
    requires Distinct(slots)
  {
    map i | 0 <= i < |slots| && slots[i].Live? :: slots[i].key := slots[i].value
  }

  lemma ContentsAt<K, V>(slots: seq<Slot<K, V>>, i: nat)
    requires Distinct(slots) && i < |slots| && slots[i].Live?
    ensures slots[i].key in Contents(slots) && Contents(slots)[slots[i].key] == slots[i].value
  {
  }

  /** Probing decides membership: it stops at the key's slot exactly when the key is stored. */
  lemma ProbeFinds<K(!new), V>(slots: seq<Slot<K, V>>, home: K -> nat, key: K)
    requires WellFormed(slots, home)
    ensures var s := Stop(slots, home(key), key, 0);
            var found := s < |slots| && slots[At(home(key), s, |slots|)].Live?;
            && (found <==> key in Contents(slots))
            && (found ==> slots[At(home(key), s, |slots|)].value == Contents(slots)[key])
  {
    var n, h := |slots|, home(key);
    var s := Stop(slots, h, key, 0);
    if key in Contents(slots) {
      var i :| 0 <= i < n && slots[i].Live? && slots[i].key == key;
      var d := Distance(h, i, n);
      assert Stops(slots[At(h, d, n)], key);
      assert s <= d;
    }
  }

  /**
    Storing `key` at distance `d` on its chain keeps the table well formed and updates the map,
    provided the overwritten slot is not live for another key and `key` is not stored elsewhere.
   */
  lemma StoreUpdates<K(!new), V>(slots: seq<Slot<K, V>>, home: K -> nat, key: K, value: V, d: nat)
    requires WellFormed(slots, home) && d < |slots|
    requires forall j | 0 <= j < d :: !slots[At(home(key), j, |slots|)].Vacant?
    requires forall i | 0 <= i < |slots| && slots[i].Live? && slots[i].key == key :: i == At(home(key), d, |slots|)
    requires var p := At(home(key), d, |slots|); slots[p].Live? ==> slots[p].key == key
    ensures var after := slots[At(home(key), d, |slots|) := Live(key, value)];
            WellFormed(after, home) && Contents(after) == Contents(slots)[key := value]
  {
    var n := |slots|;
    var p := At(home(key), d, n);
    var after := slots[p := Live(key, value)];
    assert Distance(home(key), p, n) == d;
    forall i, e | 0 <= i < n && after[i].Live? && 0 <= e < Distance(home(after[i].key), i, n)
      ensures !after[At(home(after[i].key), e, n)].Vacant?
    {
      if i != p { assert slots[i].Live?; }
    }
    ContentsReplaced(slots, p, key, value);
  }

  lemma ContentsReplaced<K, V>(slots: seq<Slot<K, V>>, p: nat, key: K, value: V)
    requires p < |slots| && Distinct(slots) && Distinct(slots[p := Live(key, value)])
    requires slots[p].Live? ==> slots[p].key == key
    ensures Contents(slots[p := Live(key, value)]) == Contents(slots)[key := value]
  {
    var after := slots[p := Live(key, value)];
    var was, now := Contents(slots), Contents(after);
    forall k ensures k in now <==> k in was[key := value]
             ensures k in now ==> now[k] == was[key := value][k]
    {
      if k == key {
        ContentsAt(after, p);
      } else {
        ContentsElsewhere(slots, after, p, k);
        ContentsElsewhere(after, slots, p, k);
      }
    }
  }

  /** A key that is not at the one slot in which two tables differ. */
  lemma ContentsElsewhere<K, V>(slots: seq<Slot<K, V>>, other: seq<Slot<K, V>>, p: nat, k: K)
    requires p < |slots| == |other| && Distinct(slots) && Distinct(other)
    requires forall i | 0 <= i < |slots| && i != p :: other[i] == slots[i]
    requires slots[p].Live? ==> slots[p].key != k
    ensures k in Contents(slots) ==> k in Contents(other) && Contents(other)[k] == Contents(slots)[k]
  {
    if k in Contents(slots) {
      var i :| 0 <= i < |slots| && slots[i].Live? && slots[i].key == k;
      ContentsAt(slots, i);
      ContentsAt(other, i);
    }
  }

  /** A tombstone removes exactly its key and breaks no chain. */
  lemma TombstoneRemoves<K(!new), V>(slots: seq<Slot<K, V>>, home: K -> nat, p: nat)
    requires WellFormed(slots, home) && p < |slots| && slots[p].Live?
    ensures var after := slots[p := Tombstone];
            WellFormed(after, home) && Contents(after) == Contents(slots) - {slots[p].key}
  {
    var after := slots[p := Tombstone];
    var gone := slots[p].key;
    TombstoneDrops(slots, p);
    forall k ensures k in Contents(after) <==> k in Contents(slots) && k != gone
             ensures k in Contents(after) ==> Contents(after)[k] == Contents(slots)[k]
    {
      hide Contents, Chained;
      if k != gone {
        ContentsElsewhere(slots, after, p, k);
        ContentsElsewhere(after, slots, p, k);
      }
    }
    assert Contents(after) == Contents(slots) - {gone};
  }

  lemma TombstoneDrops<K, V>(slots: seq<Slot<K, V>>, p: nat)
    requires Distinct(slots) && p < |slots| && slots[p].Live?
    ensures Distinct(slots[p := Tombstone]) && slots[p].key !in Contents(slots[p := Tombstone])
  {
  }

  /** A tombstone in a slot that is not live changes nothing. */
  lemma TombstoneKeeps<K(!new), V>(slots: seq<Slot<K, V>>, home: K -> nat, p: nat)
    requires WellFormed(slots, home) && p < |slots| && !slots[p].Live?
    ensures var after := slots[p := Tombstone];
            WellFormed(after, home) && Contents(after) == Contents(slots)
  {
    var after := slots[p := Tombstone];
    forall k ensures k in Contents(after) <==> k in Contents(slots)
             ensures k in Contents(after) ==> Contents(after)[k] == Contents(slots)[k]
    {
      hide Contents, Chained;
      ContentsElsewhere(slots, after, p, k);
      ContentsElsewhere(after, slots, p, k);
    }
  }

  ghost function LiveSlots<K, V>(slots: seq<Slot<K, V>>, bound: nat): set<nat>
    requires bound <= |slots|
  {
    set i: nat | i < bound && slots[i].Live?
  }

  lemma ContentsOfSnoc<K, V>(slots: seq<Slot<K, V>>, last: Slot<K, V>)
    requires Distinct(slots + [last])
    ensures Distinct(slots)
    ensures last.Live? ==> last.key !in Contents(slots)
    ensures Contents(slots + [last]) == if last.Live? then Contents(slots)[last.key := last.value] else Contents(slots)
  {
    var all, n := slots + [last], |slots|;
    assert forall i | 0 <= i < n :: all[i] == slots[i];
    assert all[n] == last;
    var was, now := Contents(slots), Contents(all);
    forall k | k in was ensures k in now && now[k] == was[k] {
      var i :| 0 <= i < n && slots[i].Live? && slots[i].key == k;
      ContentsAt(slots, i);
      ContentsAt(all, i);
    }
    forall k | k in now ensures k in was || (last.Live? && k == last.key) {
      var i :| 0 <= i < n + 1 && all[i].Live? && all[i].key == k;
      if i < n { ContentsAt(slots, i); }
    }
    if last.Live? { ContentsAt(all, n); }
  }

  lemma LiveSlotsOfSnoc<K, V>(slots: seq<Slot<K, V>>, last: Slot<K, V>)
    ensures var all := slots + [last];
            LiveSlots(all, |all|) == LiveSlots(slots, |slots|) + if last.Live? then {|slots|} else {}
  {
    var all := slots + [last];
    assert forall i: nat | i < |slots| :: all[i] == slots[i];
  }

  /** The map has one key per live slot. */
  lemma {:induction false} OneKeyPerLiveSlot<K, V>(slots: seq<Slot<K, V>>)
    requires Distinct(slots)
    ensures |Contents(slots).Keys| == |LiveSlots(slots, |slots|)|
  {
    if slots == [] {
      assert Contents(slots).Keys == {} && LiveSlots(slots, 0) == {};
    } else {
      var init, last := slots[..|slots| - 1], slots[|slots| - 1];
      assert slots == init + [last];
      ContentsOfSnoc(init, last);
      LiveSlotsOfSnoc(init, last);
      OneKeyPerLiveSlot(init);
    }
  }

  lemma {:induction false} LiveSlotBound<K, V>(slots: seq<Slot<K, V>>, bound: nat)
    requires bound <= |slots|
    ensures |LiveSlots(slots, bound)| <= bound
    ensures |LiveSlots(slots, bound)| == bound <==> forall i: nat | i < bound :: slots[i].Live?
  {
    if bound == 0 {
      assert LiveSlots(slots, bound) == {};
    } else {
      LiveSlotBound(slots, bound - 1);
      var rest := LiveSlots(slots, bound - 1);
      assert LiveSlots(slots, bound) == if slots[bound - 1].Live? then rest + {bound - 1} else rest;
      if slots[bound - 1].Live? { assert |rest + {bound - 1}| == |rest| + 1; }
    }
  }

  /** A table is full, in the sense of its map, exactly when no slot is free. */
  lemma FullMeansNoFreeSlot<K, V>(slots: seq<Slot<K, V>>)
    requires Distinct(slots)
    ensures |Contents(slots).Keys| <= |slots|
    ensures |Contents(slots).Keys| == |slots| <==> forall i | 0 <= i < |slots| :: slots[i].Live?
  {
    OneKeyPerLiveSlot(slots);
    LiveSlotBound(slots, |slots|);
  }

  /** A probe that runs round the whole table has seen every slot refuse the key, and conversely. */
  lemma ProbeExhausts<K(!new), V>(slots: seq<Slot<K, V>>, home: K -> nat, key: K)
    requires Homed(home, |slots|)
    ensures Stop(slots, home(key), key, 0) == |slots|
        <==> forall i | 0 <= i < |slots| :: !Stops(slots[i], key)
  {
    var n, h := |slots|, home(key);
    if Stop(slots, h, key, 0) == n {
      forall i | 0 <= i < n ensures !Stops(slots[i], key) {
        var d := Distance(h, i, n);
        assert !Stops(slots[At(h, d, n)], key);
      }
    }
  }
}
