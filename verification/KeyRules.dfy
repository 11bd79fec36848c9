/** The rules of the key store told case by case: what a command stores, what a query hits, and what
    becomes of names, dates, masks and chains. */
module KeyRules {
  import opened Bytes
  import opened Cards
  import opened KeyStore

  // ----- what a command stores -----

  /** Letters become capitals and nothing else changes. */
  lemma Capitals(c: char)
    ensures UpperChar('a') == 'A' && UpperChar('m') == 'M' && UpperChar('z') == 'Z'
    ensures c < 'a' || c > 'z' ==> UpperChar(c) == c
    ensures 'a' <= c <= 'z' ==> UpperChar(c) as int == c as int - 32
  {
  }

  /** Every container but that of the BISS words takes every command: the name in capitals, the value
      as it is, and for Irdeto a short provider shifted by a byte. */
  lemma PreparedElsewhere(id: char, c: Command)
    requires id != 'F'
    ensures Prepare(id, c) == Some((if id == 'I' && c.provider <= 0xFFFE then 256 * c.provider else c.provider, Upper(c.name), c.key))
  {
  }

  /** A BISS word goes under a date of eight characters, the names 00 and 01 standing for the one that
      never expires; six bytes get their sums, and a date that has come is refused where it is checked. */
  lemma PreparedBiss(c: Command)
    ensures
      var upper := Upper(c.name);
      var name := if upper == "00" || upper == "01" then "00000000" else upper;
      var p := Prepare('F', c);
      && (|name| != 8 ==> p == None)
      && (|name| == 8 && c.dates.Checked? && name != "00000000" && NotBefore(c.dates.today, name) ==> p == None)
      && (|name| == 8 && (c.dates == Ignored || name == "00000000" || !NotBefore(c.dates.today, name)) ==>
            && p.Some? && p.value.0 == c.provider && p.value.1 == name
            && (|c.key| != 6 ==> p.value.2 == c.key)
            && (|c.key| == 6 ==>
                  && |p.value.2| == 8 && p.value.2[..3] + p.value.2[4..7] == c.key
                  && p.value.2[3] as int == (c.key[0] as int + c.key[1] as int + c.key[2] as int) % 256
                  && p.value.2[7] as int == (c.key[3] as int + c.key[4] as int + c.key[5] as int) % 256))
  {
    hide NotBefore, WithChecksums, Upper;
    if |c.key| == 6 {
      ChecksumsAdded(c.key);
      var r := WithChecksums(c.key);
      assert r[..3] == (r[..3] + r[4..7])[..3] && r[4..7] == (r[..3] + r[4..7])[3..];
      assert r[0] == c.key[0] && r[1] == c.key[1] && r[2] == c.key[2];
      assert r[4] == c.key[3] && r[5] == c.key[4] && r[6] == c.key[5];
    }
  }

  /** Dates are compared character by character: the first difference decides, and a date is not before
      what it begins with. */
  lemma {:induction false} DateOrder(p: string, x: char, y: char, s: string, t: string)
    ensures x != y ==> (NotBefore(p + [x] + s, p + [y] + t) <==> x > y)
    ensures NotBefore(p + s, p)
    ensures !NotBefore(p, p + [y] + t)
    decreases |p|
  {
    if p == [] {
      assert p + [x] + s == [x] + s && p + [y] + t == [y] + t && p + s == s;
    } else {
      DateOrder(p[1..], x, y, s, t);
      assert (p + [x] + s)[1..] == p[1..] + [x] + s;
      assert (p + [y] + t)[1..] == p[1..] + [y] + t;
      assert (p + s)[1..] == p[1..] + s;
    }
  }

  // ----- chains and names -----

  /** Two values of a chain are the same if one begins with the other. */
  lemma SameIfPrefix(a: Value, b: Value)
    ensures SamePrefix(a, b) <==> a <= b || b <= a
  {
  }

  /** A second value replaces the first, but for Irdeto, where it is chained unless it is the same. */
  lemma SecondValue(id: char, provider: nat, name: string, first: Value, second: Value)
    ensures
      var (done, slots) := SetKey(id, [Slot(provider, name, [first])], provider, name, second);
      && |slots| == 1 && slots[0].provider == provider
      && (id != 'I' ==> done && slots[0].values == [second])
      && (id == 'I' && (first <= second || second <= first) ==> !done && slots[0].values == [first])
      && (id == 'I' && !(first <= second || second <= first) ==> done && slots[0].values == [first, second])
  {
    SameIfPrefix(first, second);
    var slots := [Slot(provider, name, [first])];
    assert Hits(id, slots[0], Exact(provider, name));
    assert FindSlot(id, slots, Exact(provider, name), 0) == 0;
    assert HasDuplicate([first], second) <==> SamePrefix(first, second) by {
      assert [first][0] == first;
    }
  }

  /** A chain of 256 values loses its last one. */
  lemma FullChain(values: seq<Value>, key: Value)
    ensures |values| <= 255 ==> Extend(values, key) == values + [key]
    ensures |values| == 256 ==> |Extend(values, key)| == 256 && Extend(values, key)[255] == key && Extend(values, key)[..255] == values[..255]
  {
  }

  /** A name is kept in eleven characters; of a BISS word it is an expiration date and takes no part in
      the search. */
  lemma NamesKept(id: char, slots: seq<Slot>, provider: nat, name: string, key: Value)
    requires FindSlot(id, slots, Exact(provider, name), 0) == |slots|
    ensures
      var r := SetKey(id, slots, provider, name, key);
      && r.0 && |r.1| == |slots| + 1 && r.1[..|slots|] == slots && r.1[|slots|].provider == provider && r.1[|slots|].values == [key]
      && r.1[|slots|].name == if |name| <= 11 then name else name[..11]
  {
    hide FindSlot;
  }

  // ----- what a query hits -----

  lemma {:induction false} MaskedBits(x: nat, mask: nat, k: nat)
    ensures x >= And(x, mask) && Bit(x - And(x, mask), k) == if Bit(mask, k) == 1 then 0 else Bit(x, k)
    decreases x, k
  {
    if x == 0 {
      ZeroBits(k);
    } else {
      MaskedBits(x / 2, mask / 2, if k > 0 then k - 1 else 0);
      var rest := x / 2 - And(x / 2, mask / 2);
      var low := x % 2 - if x % 2 == 1 && mask % 2 == 1 then 1 else 0;
      var sum := And(x, mask);
      assert sum == (if x % 2 == 1 && mask % 2 == 1 then 1 else 0) + 2 * And(x / 2, mask / 2);
      assert x - sum == low + 2 * rest;
      BitAndRest(low, rest);
    }
  }

  /** The bits of the mask are cleared in the slot's provider, and what is left is compared with the one
      asked for; the name counts but for BISS words, and the length where it is asked for. */
  lemma HitsIff(id: char, s: Slot, q: Query)
    ensures Hits(id, s, q) <==>
      && s.provider - And(s.provider, q.mask) == q.provider
      && (id != 'F' ==> s.name == q.name)
      && (q.matchLength ==> |s.values| >= 1 && |s.values[0]| == q.maxLength)
  {
    if q.mask == 0 {
      AndZero(s.provider);
    }
  }

  lemma {:induction false} AndZero(x: nat)
    ensures And(x, 0) == 0
    decreases x
  {
    if x > 0 {
      AndZero(x / 2);
    }
  }

  /** Without a mask the place counts in the chain of the first slot hit, with one it counts the slots
      hit, of which only the first value is read. */
  lemma PlaceCounts(id: char, slots: seq<Slot>, q: Query, keyRef: nat)
    ensures
      var found := FindKey(id, slots, q, keyRef);
      && (q.mask == 0 ==>
            var i := FindSlot(id, slots, q, 0);
            found == if i == |slots| || keyRef >= |slots[i].values| then None
                     else Some(Found(Fit(slots[i].values[keyRef], q.maxLength), slots[i].name, slots[i].provider)))
      && (q.mask != 0 ==>
            var i := FindSlot(id, slots, q, keyRef);
            found == if i == |slots| || keyRef >= 256 || slots[i].values == [] then None
                     else Some(Found(Fit(slots[i].values[0], q.maxLength), slots[i].name, slots[i].provider)))
  {
    hide FindSlot, Fit;
  }

  /** An update does nothing exactly if some value of the chain, from the first on, reads as the new one;
      otherwise it sets it. */
  lemma UpdateUnlessThere(id: char, slots: seq<Slot>, c: Command)
    ensures
      var i := FindSlot(id, slots, Query(c.provider, 0, c.name, |c.key|, false), 0);
      UpdateKey(id, slots, c) ==
        if i < |slots| && exists v :: v in slots[i].values && Fit(v, |c.key|) == c.key then (false, slots) else Set(id, slots, c)
  {
    hide FindSlot, Set, Fit;
    var i := FindSlot(id, slots, Query(c.provider, 0, c.name, |c.key|, false), 0);
    if i < |slots| {
      if v :| v in slots[i].values && Fit(v, |c.key|) == c.key {
        var k :| 0 <= k < |slots[i].values| && slots[i].values[k] == v;
        assert Fit(slots[i].values[k], |c.key|) == c.key;
      } else {
        assert forall k :: 0 <= k < |slots[i].values| ==> slots[i].values[k] in slots[i].values;
      }
    }
  }

  /** A value is cut or filled up with zeros to the length asked for. */
  lemma Fitted(v: Value, n: nat, i: nat)
    requires i < n
    ensures Fit(v, n)[i] == if i < |v| then v[i] else 0
  {
  }
}
