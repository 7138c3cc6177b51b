/**
 The linear-probing table of tools/daemon/hash.c, with its "last accessed" shortcut.  A table of slots
 is read as a finite map; the methods are proved against that map.
 */
module HashTable {
  import opened Options
  import opened Arith

  /** HASH_KEY_INVALID: the 32-bit key of a free slot. */
  const KEY_INVALID: nat := 0xFFFF_FFFF

  /** The address of a stored object; NULL is None. */
  type Ptr = nat

  datatype Slot = Slot(key: nat, value: Option<Ptr>)

  function FreeSlot(): (s: Slot) { Slot(KEY_INVALID, None) }

  function Occupied(t: seq<Slot>): (n: nat)
    ensures n <= |t|
  {
    if t == [] then 0 else Occupied(t[..|t| - 1]) + if t[|t| - 1].key != KEY_INVALID then 1 else 0
  }

  /**
   A table t, the finite map m it stands for, and the books of its values.  Slot place[k] holds key k with
   value m[k], every other slot is free and empty; so a key sits in exactly one slot and the map is
   determined by the table.  A value taken over is either freed or in the map under the key owner[v].
   */
  datatype Model = Model(t: seq<Slot>, m: map<nat, Ptr>, place: map<nat, nat>,
                         owner: map<Ptr, nat>, freed: set<Ptr>) {
    ghost predicate Valid()
    {
      && place.Keys == m.Keys && KEY_INVALID !in m
      && (forall k {:trigger m[k]} | k in m :: place[k] < |t| && t[place[k]] == Slot(k, Some(m[k])))
      && (forall i | 0 <= i < |t| :: Backed(i))
      && (forall k {:trigger m[k]} | k in m :: m[k] in owner && owner[m[k]] == k)
      && (forall v {:trigger owner[v]} | v in owner :: owner[v] in m && m[owner[v]] == v && v !in freed)
    }

    /** Slot i is free and empty, or it is the place of its key. */
    ghost predicate Backed(i: nat)
      requires i < |t|
    {
      if t[i].key == KEY_INVALID then t[i].value.None? else t[i].key in m && t[i].key in place && place[t[i].key] == i
    }

    /** The values ever taken over. */
    ghost function Accepted(): (s: set<Ptr>)
    {
      owner.Keys + freed
    }
  }

  lemma {:induction false} FullIffNoFreeSlot(t: seq<Slot>)
    ensures Occupied(t) == |t| <==> forall i | 0 <= i < |t| :: t[i].key != KEY_INVALID
  {
    if t != [] {
      var init := t[..|t| - 1];
      FullIffNoFreeSlot(init);
      assert forall i | 0 <= i < |init| :: init[i] == t[i];
    }
  }

  lemma {:induction false} ReplaceOccupied(t: seq<Slot>, i: nat, s: Slot)
    requires i < |t|
    ensures Occupied(t[i := s]) + (if t[i].key != KEY_INVALID then 1 else 0)
         == Occupied(t) + (if s.key != KEY_INVALID then 1 else 0)
  {
    var n := |t| - 1;
    if i == n {
      assert t[i := s][..n] == t[..n];
    } else {
      ReplaceOccupied(t[..n], i, s);
      assert t[i := s][..n] == t[..n][i := s];
    }
  }

  /** The number of used slots is the number of keys of the map. */
  lemma {:induction false} OccupiedIsSize(t: seq<Slot>, m: map<nat, Ptr>, place: map<nat, nat>)
    requires m.Keys == place.Keys && KEY_INVALID !in m
    requires forall k | k in place :: place[k] < |t| && t[place[k]].key == k
    requires forall i | 0 <= i < |t| && t[i].key != KEY_INVALID :: t[i].key in place && place[t[i].key] == i
    ensures Occupied(t) == |m|
  {
    if t == [] {
      assert m.Keys == {};
    } else {
      var n := |t| - 1;
      var k := t[n].key;
      if k == KEY_INVALID {
        OccupiedIsSize(t[..n], m, place);
      } else {
        OccupiedIsSize(t[..n], m - {k}, place - {k});
        assert m.Keys == (m - {k}).Keys + {k};
      }
    }
  }

  lemma ModelSize(g: Model)
    requires g.Valid()
    ensures Occupied(g.t) == |g.m|
  {
    forall k | k in g.place
      ensures g.place[k] < |g.t| && g.t[g.place[k]].key == k
    {
      HeldOnce(g, k);
    }
    forall i | 0 <= i < |g.t| && g.t[i].key != KEY_INVALID
      ensures g.t[i].key in g.place && g.place[g.t[i].key] == i
    {
      assert g.Backed(i);
    }
    OccupiedIsSize(g.t, g.m, g.place);
  }

  /** A key is in the map exactly when some slot holds it, and then in that slot only. */
  lemma HeldOnce(g: Model, key: nat)
    requires g.Valid() && key != KEY_INVALID
    ensures key in g.m ==> g.place[key] < |g.t| && g.t[g.place[key]] == Slot(key, Some(g.m[key]))
    ensures forall i | 0 <= i < |g.t| && g.t[i].key == key :: key in g.m && g.place[key] == i
  {
    if key in g.m { assert g.m[key] == g.m[key]; }
    forall i | 0 <= i < |g.t| && g.t[i].key == key ensures key in g.m && g.place[key] == i {
      assert g.Backed(i);
    }
  }

  /**
   Storing a value in its key's slot, or in a free slot for a new key, is a map update; a value it
   overwrites is freed, for the first time.
   */
  lemma StoreIsUpdate(g: Model, i: nat, key: nat, value: Ptr) returns (g': Model)
    requires g.Valid() && i < |g.t| && key != KEY_INVALID && value !in g.Accepted()
    requires g.t[i].key == key || (g.t[i].key == KEY_INVALID && key !in g.m)
    ensures g'.Valid() && g'.t == g.t[i := Slot(key, Some(value))] && g'.m == g.m[key := value]
    ensures g.t[i].value == if key in g.m then Some(g.m[key]) else None
    ensures key in g.m ==> g.m[key] !in g.freed
    ensures g'.freed == (if key in g.m then g.freed + {g.m[key]} else g.freed) && g'.Accepted() == g.Accepted() + {value}
    ensures Occupied(g'.t) == Occupied(g.t) + if g.t[i].key == KEY_INVALID then 1 else 0
  {
    HeldOnce(g, key);
    assert g.Backed(i);
    var t' := g.t[i := Slot(key, Some(value))];
    if key in g.m {
      var previous := g.m[key];
      assert g.owner[previous] == key;
      g' := Model(t', g.m[key := value], g.place[key := i], (g.owner - {previous})[value := key], g.freed + {previous});
    } else {
      g' := Model(t', g.m[key := value], g.place[key := i], g.owner[value := key], g.freed);
    }
    forall j: nat | j < |g'.t| ensures g'.Backed(j) {
      assert g.Backed(j);
    }
    ReplaceOccupied(g.t, i, Slot(key, Some(value)));
  }

  /** Freeing a key's slot removes the key and frees its value, for the first time. */
  lemma FreeIsRemoval(g: Model, i: nat) returns (g': Model)
    requires g.Valid() && i < |g.t| && g.t[i].key != KEY_INVALID
    ensures g'.Valid() && g'.t == g.t[i := FreeSlot()] && g'.m == g.m - {g.t[i].key}
    ensures g.t[i].key in g.m && g.t[i].value == Some(g.m[g.t[i].key]) && g.m[g.t[i].key] !in g.freed
    ensures g'.freed == g.freed + {g.m[g.t[i].key]} && g'.Accepted() == g.Accepted()
    ensures Occupied(g'.t) == Occupied(g.t) - 1
  {
    var k := g.t[i].key;
    assert g.Backed(i);
    var v := g.m[k];
    assert g.owner[v] == k;
    g' := Model(g.t[i := FreeSlot()], g.m - {k}, g.place - {k}, g.owner - {v}, g.freed + {v});
    forall j: nat | j < |g'.t| ensures g'.Backed(j) {
      assert g.Backed(j);
    }
    ReplaceOccupied(g.t, i, FreeSlot());
  }

  /** A table of free slots stands for the empty map, and every value it took over is freed. */
  lemma AllFree(g: Model)
    requires g.Valid() && forall i | 0 <= i < |g.t| :: g.t[i] == FreeSlot()
    ensures g.m == map[] && g.freed == g.Accepted() && Occupied(g.t) == 0
  {
    NoneOccupied(g.t);
    ModelSize(g);
    OwnersAreKeys(g);
    assert g.owner.Keys == {};
  }

  lemma {:induction false} NoneOccupied(t: seq<Slot>)
    requires forall i | 0 <= i < |t| :: t[i] == FreeSlot()
    ensures Occupied(t) == 0
  {
    if t != [] { NoneOccupied(t[..|t| - 1]); }
  }

  lemma OwnersAreKeys(g: Model)
    requires g.Valid()
    ensures forall v | v in g.owner :: g.owner[v] in g.m
  {
  }

  /** The map is determined by the table. */
  lemma ContentsUnique(g: Model, g': Model)
    requires g.Valid() && g'.Valid() && g.t == g'.t
    ensures g.m == g'.m
  {
    SameEntries(g, g');
    SameEntries(g', g);
  }

  lemma SameEntries(g: Model, g': Model)
    requires g.Valid() && g'.Valid() && g.t == g'.t
    ensures forall k | k in g.m :: k in g'.m && g'.m[k] == g.m[k]
  {
    forall k | k in g.m
      ensures k in g'.m && g'.m[k] == g.m[k]
    {
      HeldOnce(g, k);
      HeldOnce(g', k);
    }
  }

  /** Probing size slots from any start, stepping by one modulo size, visits every slot. */
  lemma ProbeReaches(start: nat, size: nat, slot: nat) returns (step: nat)
    requires slot < size
    ensures step < size && (start + step) % size == slot
  {
    var r := start % size;
    step := if r <= slot then slot - r else slot - r + size;
    assert start == size * (start / size) + r;
    if r <= slot {
      DivModUnique(start + step, size, start / size, slot);
    } else {
      assert size * (start / size + 1) == size * (start / size) + size;
      DivModUnique(start + step, size, start / size + 1, slot);
    }
  }

  /** The calls of free: each value that was freed, and none of them twice. */
  ghost predicate FreedOnce(calls: seq<Ptr>, freed: set<Ptr>)
  {
    && (forall i, j | 0 <= i < j < |calls| :: calls[i] != calls[j])
    && (forall v :: v in calls <==> v in freed)
  }

  /** One more call, for a value not freed before. */
  lemma FreeOneMore(calls: seq<Ptr>, freed: set<Ptr>, v: Ptr)
    requires FreedOnce(calls, freed) && v !in freed
    ensures FreedOnce(calls + [v], freed + {v})
  {
  }

  class Table {
    const size: nat
    const slots: array<Slot>        // hash_table
    var last: Option<nat>           // index of the last accessed slot
    var count: nat
    var freeCalls: seq<Ptr>         // the calls of ht->free so far, oldest first

    ghost var g: Model              // the slots and the map they stand for

    ghost predicate Valid()
      reads this, slots
    {
      && size == slots.Length >= 1 && g.t == slots[..]
      && g.Valid() && count == Occupied(g.t)
      && (last.Some? ==> last.value < size)
      && FreedOnce(freeCalls, g.freed)
    }

    /** The finite map. */
    ghost function Contents(): (m: map<nat, Ptr>)
      reads this
    {
      g.m
    }

    /** `count` is the number of keys. */
    lemma CountIsSize()
      requires Valid()
      ensures count == |Contents()| <= size
    {
      ModelSize(g);
    }

    /** A table of a given prime size (`hash_create`). */
    constructor (size: nat)
      requires size >= 1
      ensures Valid() && Contents() == map[] && g.Accepted() == {} && this.size == size && freeCalls == [] && fresh(slots)
    {
      this.size := size;
      slots := new Slot[size](_ => FreeSlot());
      last, count, freeCalls := None, 0, [];
      g := Model(seq(size, _ => FreeSlot()), map[], map[], map[], {});
      new;
      AllFree(g);
    }

    /**
     `hash_find`: with flag 0 the slot of the key, with flag 1 a free slot.  The slot found is the same
     whether the shortcut through `last` is taken or not, since a key has one slot.
     */
    method Find(key: nat, add: bool) returns (r: Option<nat>)
      requires Valid() && key != KEY_INVALID && (add ==> key !in Contents())
      modifies this`last
      ensures Valid()
      ensures !add ==> r == if key in Contents() then Some(g.place[key]) else None
      ensures add ==> (r.Some? <==> count < size)
      ensures r.Some? ==> r.value < size && g.t[r.value].key == if add then KEY_INVALID else key
    {
      HeldOnce(g, key);
      if last.Some? && slots[last.value].key == key {
        return last;
      }
      r := Probe(key, if add then KEY_INVALID else key);
      if r.Some? { last := r; }
      FullIffNoFreeSlot(g.t);
    }

    /** The probing loop. */
    method Probe(key: nat, wanted: nat) returns (r: Option<nat>)
      requires size == slots.Length >= 1
      ensures r.Some? ==> r.value < size && slots[r.value].key == wanted
      ensures r.None? ==> forall i | 0 <= i < size :: slots[i].key != wanted
    {
      var attempts, idx := 0, key % size;
      while true
        invariant 0 <= attempts < size && idx == (key + attempts) % size
        invariant forall a: nat | a < attempts :: slots[Wrap(key, a)].key != wanted
        decreases size - attempts
      {
        if slots[idx].key == wanted {
          return Some(idx);
        }
        if attempts >= size - 1 {
          forall i | 0 <= i < size
            ensures slots[i].key != wanted
          {
            var step := ProbeReaches(key, size, i);
            assert Wrap(key, step) == i;
          }
          return None;
        }
        WrapIncrement(key + attempts, size);
        attempts := attempts + 1;
        idx := (idx + 1) % size;
      }
    }

    ghost function Wrap(key: nat, a: nat): (i: nat)
      reads this
      requires size >= 1
      ensures i < size
    {
      (key + a) % size
    }

    /** `hash_get` */
    method Get(key: nat) returns (value: Option<Ptr>)
      requires Valid() && key != KEY_INVALID
      modifies this`last
      ensures Valid()
      ensures value == if key in Contents() then Some(Contents()[key]) else None
    {
      var e := Find(key, false);
      HeldOnce(g, key);
      value := if e.Some? then slots[e.value].value else None;
    }

    /** `hash_enum` */
    method Enum(index: nat) returns (value: Option<Ptr>)
      requires Valid() && index < size
      ensures value.Some? ==> g.t[index].key in Contents() && value.value == Contents()[g.t[index].key]
      ensures value.None? <==> g.t[index].key == KEY_INVALID
    {
      assert g.Backed(index);
      if g.t[index].key != KEY_INVALID { HeldOnce(g, g.t[index].key); }
      value := slots[index].value;
    }

    /**
     `hash_put`: succeeds exactly when the table is not full, overwriting and freeing the key's old value.
     Values are pointers handed over once.
     */
    method Put(key: nat, value: Ptr) returns (stored: bool)
      requires Valid() && key != KEY_INVALID && value !in g.Accepted()
      modifies this, slots
      ensures Valid()
      ensures stored <==> old(count) < size
      ensures stored ==> Contents() == old(Contents())[key := value] && g.Accepted() == old(g.Accepted()) + {value}
      ensures stored ==> freeCalls == old(freeCalls) + if key in old(Contents()) then [old(Contents())[key]] else []
      ensures !stored ==> g == old(g) && freeCalls == old(freeCalls)
    {
      if count < size {
        var e := Find(key, false);
        if e.None? {
          e := Find(key, true);
        }
        Store(e.value, key, value);
        return true;
      }
      return false;
    }

    method Store(i: nat, key: nat, value: Ptr)
      requires Valid() && key != KEY_INVALID && i < size && value !in g.Accepted()
      requires g.t[i].key == key || (g.t[i].key == KEY_INVALID && key !in Contents())
      modifies this`g, this`count, this`freeCalls, slots
      ensures Valid() && Contents() == old(Contents())[key := value] && g.Accepted() == old(g.Accepted()) + {value}
      ensures freeCalls == old(freeCalls) + if key in old(Contents()) then [old(Contents())[key]] else []
    {
      ghost var g' := StoreIsUpdate(g, i, key, value);
      FreeValue(i);
      if slots[i].key == KEY_INVALID { count := count + 1; }
      slots[i] := Slot(key, Some(value));
      g := g';
    }

    /** `hash_del`: removes the key, if present, and frees its value. */
    method Delete(key: nat)
      requires Valid() && key != KEY_INVALID
      modifies this, slots
      ensures Valid() && g.Accepted() == old(g.Accepted())
      ensures Contents() == old(Contents()) - {key}
      ensures freeCalls == old(freeCalls) + if key in old(Contents()) then [old(Contents())[key]] else []
    {
      var e := Find(key, false);
      if e.Some? {
        Clear(e.value);
      }
    }

    /** The guarded call of ht->free on the value of a slot. */
    method FreeValue(i: nat)
      requires i < slots.Length && (slots[i].value.Some? ==> FreedOnce(freeCalls, g.freed) && slots[i].value.value !in g.freed)
      modifies this`freeCalls
      ensures freeCalls == old(freeCalls) + if slots[i].value.Some? then [slots[i].value.value] else []
      ensures slots[i].value.Some? ==> FreedOnce(freeCalls, g.freed + {slots[i].value.value})
    {
      if slots[i].value.Some? {
        FreeOneMore(freeCalls, g.freed, slots[i].value.value);
        freeCalls := freeCalls + [slots[i].value.value];
      }
    }

    /** Free one used slot; its value has not been freed before. */
    method Clear(i: nat)
      requires Valid() && i < size && g.t[i].key != KEY_INVALID
      modifies this`g, this`count, this`freeCalls, slots
      ensures Valid() && old(g.t[i].key) in old(Contents()) && g.Accepted() == old(g.Accepted())
      ensures Contents() == old(Contents()) - {old(g.t[i].key)} && g.t == old(g.t)[i := FreeSlot()]
      ensures freeCalls == old(freeCalls) + [old(Contents())[old(g.t[i].key)]]
    {
      ghost var g' := FreeIsRemoval(g, i);
      FreeValue(i);
      count := count - 1;
      slots[i] := FreeSlot();
      g := g';
    }

    /** `hash_destroy`: free has now been called once on every value ever accepted, and on nothing else. */
    method Destroy()
      requires Valid()
      modifies this, slots
      ensures Valid() && Contents() == map[]
      ensures g.Accepted() == old(g.Accepted()) && FreedOnce(freeCalls, g.Accepted()) && old(freeCalls) <= freeCalls
    {
      for i := 0 to size
        invariant Valid() && g.Accepted() == old(g.Accepted()) && old(freeCalls) <= freeCalls
        invariant forall j | 0 <= j < i :: g.t[j] == FreeSlot()
      {
        if slots[i].key != KEY_INVALID {
          Clear(i);
        } else {
          assert g.Backed(i);
        }
      }
      AllFree(g);
    }
  }
}
