/** A key container as the program keeps it (module-emulator-nemu.c): an array with room to
    spare, a count, and a limit that grows. The keys in use are the slots of KeyStore, and every
    method, whether it looks up, stores, chains, updates or deletes, is proved against the
    function of KeyStore that says what it computes. */
module KeyContainer {
  import opened Bytes
  import opened Cards
  import opened KeyStore

  class Container {
    const id: char
    var emuKeys: array?<Slot>
    var keyCount: nat
    var keyMax: nat

    predicate Shape()
      reads this
    {
      && keyCount <= keyMax
      && (emuKeys == null <==> keyMax == 0)
      && (emuKeys != null ==> emuKeys.Length == keyMax)
    }

    /** The keys there are. */
    function Slots(): (s: seq<Slot>)
      reads this, emuKeys
      requires Shape()
      ensures |s| == keyCount
    {
      if emuKeys == null then [] else emuKeys[..keyCount]
    }

    /** Every slot is good. Names are kept apart besides as long as they fit (SetKeyKeepsGood). */
    predicate Valid()
      reads this, emuKeys
    {
      Shape() && AllGood(id, Slots())
    }

    constructor (id: char)
      ensures this.id == id && Valid() && Slots() == []
    {
      this.id := id;
      emuKeys, keyCount, keyMax := null, 0, 0;
    }

    /** The loop of emu_set_key over the keys: the position of the match, or the count. */
    method Match(provider: nat, name: string) returns (i: nat)
      requires Valid()
      ensures i == FindSlot(id, Slots(), Exact(provider, name), 0)
    {
      hide FindSlot, AllGood;
      i := 0;
      while i < keyCount
        invariant 0 <= i <= keyCount
        invariant forall j :: 0 <= j < i ==> !Hits(id, Slots()[j], Exact(provider, name))
      {
        if emuKeys[i].provider == provider && (id == 'F' || emuKeys[i].name == name) {
          return;
        }
        i := i + 1;
      }
    }

    /** Room for one more key: 64 places at first, then 16 more at a time. */
    method Grow()
      requires Shape()
      modifies this
      ensures Shape() && keyCount < keyMax && keyCount == old(keyCount)
      ensures emuKeys == old(emuKeys) || fresh(emuKeys)
      ensures keyMax == old(if keyCount < keyMax then keyMax else if keyMax == 0 then 64 else keyMax + 16)
      ensures Slots() == old(Slots())
    {
      if keyCount + 1 > keyMax {
        if emuKeys == null {
          emuKeys := new Slot[keyMax + 64];
          keyMax := keyMax + 64;
        } else {
          var bigger := new Slot[keyMax + 16];
          forall k | 0 <= k < keyMax {
            bigger[k] := emuKeys[k];
          }
          assert bigger[..keyCount] == emuKeys[..keyCount];
          emuKeys := bigger;
          keyMax := keyMax + 16;
        }
      }
    }

    /** Compares a key with the values of a chain. */
    method HasSamePrefix(values: seq<Value>, key: Value) returns (found: bool)
      ensures found == HasDuplicate(values, key)
    {
      hide SamePrefix;
      var j := 0;
      while j < |values|
        invariant 0 <= j <= |values| && forall k :: 0 <= k < j ==> !SamePrefix(values[k], key)
      {
        if SamePrefix(values[j], key) {
          return true;
        }
        j := j + 1;
      }
      return false;
    }

    /** Walks to the end of the chain, at most 254 steps, and puts the value there; a value
        behind that place is freed. */
    method Chained(values: seq<Value>, key: Value) returns (r: seq<Value>)
      requires 1 <= |values| <= MAX_CHAIN
      ensures r == Extend(values, key)
    {
      var j := 0;
      while j + 1 < |values| && j != 0xFE
        invariant 0 <= j < |values| && j <= 0xFE
      {
        j := j + 1;
      }
      r := values[..j + 1] + [key];
    }

    /** emu_set_key once provider, name and key are prepared. */
    method StoreKey(provider: nat, name: string, key: Value) returns (ok: bool)
      requires Valid()
      modifies this, emuKeys
      ensures Valid() && (ok, Slots()) == SetKey(id, old(Slots()), provider, name, key)
      ensures emuKeys == old(emuKeys) || fresh(emuKeys)
      ensures old(keyMax) <= keyMax
    {
      hide FindSlot, AllGood, Extend, HasDuplicate;
      ghost var before := Slots();
      SetKeyKeepsSlots(id, before, provider, name, key);
      var i := Match(provider, name);
      if i < keyCount {
        GoodAt(before, i);
        if id == 'I' {
          var duplicate := HasSamePrefix(emuKeys[i].values, key);
          if duplicate {
            return false;
          }
          var values := Chained(emuKeys[i].values, key);
          emuKeys[i] := emuKeys[i].(values := values);
        } else {
          emuKeys[i] := emuKeys[i].(values := emuKeys[i].values[0 := key]);
          if id == 'F' {
            emuKeys[i] := emuKeys[i].(name := Stored(name));
          }
        }
        assert Slots() == SetKey(id, before, provider, name, key).1;
        return true;
      }
      Grow();
      emuKeys[keyCount] := Slot(provider, Stored(name), [key]);
      keyCount := keyCount + 1;
      assert Slots() == before + [Slot(provider, Stored(name), [key])];
      return true;
    }

    lemma GoodAt(slots: seq<Slot>, i: nat)
      requires AllGood(id, slots) && i < |slots|
      ensures 1 <= |slots[i].values| <= MAX_CHAIN
    {
      assert GoodSlot(id, slots[i]);
    }

    /** emu_set_key on the container of the identifier. */
    method SetEmuKey(c: Command) returns (ok: bool)
      requires Valid()
      modifies this, emuKeys
      ensures Valid() && (ok, Slots()) == Set(id, old(Slots()), c)
      ensures emuKeys == old(emuKeys) || fresh(emuKeys)
      ensures old(keyMax) <= keyMax
    {
      hide SetKey, AllGood;
      var name := Upper(c.name);
      if id == 'F' {
        if name == "00" || name == "01" {
          name := EVERGREEN;
        }
        if |name| != 8 {
          return false;
        }
        if c.dates.Checked? {
          if name != EVERGREEN && NotBefore(c.dates.today, name) {
            return false;
          }
        }
      }
      var key := c.key;
      if id == 'F' && |c.key| == 6 {
        key := WithChecksums(c.key);
      }
      var provider := c.provider;
      if id == 'I' && provider < 0xFFFF {
        provider := provider * 0x100;
      }
      assert Prepare(id, c) == Some((provider, name, key));
      ok := StoreKey(provider, name, key);
    }

    /** The value that keyRef names in a slot's chain. */
    method ReadSlot(s: Slot, ref: nat, maxLength: nat) returns (found: Option<Found>)
      requires s.values != []
      ensures found == if ref < |s.values| then Some(Found(Fit(s.values[ref], maxLength), s.name, s.provider)) else None
    {
      hide Fit;
      var j := 0;
      while j < ref && j + 1 < |s.values|
        invariant 0 <= j <= ref && j < |s.values|
      {
        j := j + 1;
      }
      if j == ref {
        found := Some(Found(Fit(s.values[j], maxLength), s.name, s.provider));
      } else {
        found := None;
      }
    }

    /** emu_find_key. */
    method FindEmuKey(q: Query, keyRef: nat) returns (found: Option<Found>)
      requires Valid()
      ensures found == FindKey(id, Slots(), q, keyRef)
    {
      hide FindSlot, AllGood, Hits, Fit;
      ghost var slots := Slots();
      ghost var n := if q.mask == 0 then 0 else keyRef;
      var i := 0;
      var ref := keyRef;
      var count: byte := 0;
      assert slots[0..] == slots;
      while i < keyCount
        invariant 0 <= i <= keyCount && ref == keyRef && count <= n
        invariant n < 256 ==> FindSlot(id, slots, q, n) == i + FindSlot(id, slots[i..], q, n - count)
      {
        FindSlotStep(slots, i, q, n - count);
        if Hits(id, emuKeys[i], q) {
          if q.mask != 0 && count < ref {
            count := Add(count, 1);
          } else {
            if q.mask != 0 {
              ref := 0;
            }
            GoodAt(slots, i);
            found := ReadSlot(emuKeys[i], ref, q.maxLength);
            return;
          }
        }
        i := i + 1;
      }
      return None;
    }

    lemma FindSlotStep(slots: seq<Slot>, i: nat, q: Query, n: nat)
      requires i < |slots|
      ensures FindSlot(id, slots[i..], q, n)
        == if Hits(id, slots[i], q) then if n == 0 then 0 else 1 + FindSlot(id, slots[i + 1..], q, n - 1)
           else 1 + FindSlot(id, slots[i + 1..], q, n)
    {
      assert slots[i..][1..] == slots[i + 1..];
    }

    /** emu_update_key. The chain is finite, so asking for value after value ends. */
    method UpdateEmuKey(c: Command) returns (ok: bool)
      requires Valid() && id != 'F'
      modifies this, emuKeys
      ensures Valid() && (ok, Slots()) == UpdateKey(id, old(Slots()), c)
      ensures emuKeys == old(emuKeys) || fresh(emuKeys)
    {
      hide FindSlot, AllGood, Hits, Fit, Set;
      ghost var slots := Slots();
      ghost var i := FindSlot(id, slots, QueryFor(c), 0);
      if i < |slots| {
        GoodAt(slots, i);
      }
      var keyRef := 0;
      var found := FindEmuKey(QueryFor(c), keyRef);
      while found.Some?
        invariant Valid() && Slots() == slots && emuKeys == old(emuKeys)
        invariant found == FindKey(id, slots, QueryFor(c), keyRef)
        invariant keyRef == 0 || (i < |slots| && keyRef <= |slots[i].values|)
        invariant i < |slots| ==> forall k :: 0 <= k < keyRef ==> Fit(slots[i].values[k], |c.key|) != c.key
        decreases MAX_CHAIN + 1 - keyRef
      {
        if found.value.key == c.key {
          return false;
        }
        keyRef := keyRef + 1;
        found := FindEmuKey(QueryFor(c), keyRef);
      }
      assert !AlreadyThere(id, slots, c);
      ok := SetEmuKey(c);
    }

    /** delete_keys_in_container. */
    method DeleteKeys() returns (count: nat)
      requires Valid()
      modifies this
      ensures Valid() && Slots() == [] && keyMax == (if count > 0 then 0 else old(keyMax)) && count == old(keyCount)
    {
      if emuKeys == null || keyCount == 0 {
        return 0;
      }
      count := keyCount;
      emuKeys, keyCount, keyMax := null, 0, 0;
    }
  }
}
