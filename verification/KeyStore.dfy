/** The key store of the emulator (module-emulator-nemu.c): one growing table of slots per kind of
    key, found by provider and name; Irdeto slots hold a chain of values. */
module KeyStore {
  import opened Bytes
  import opened Cards

  const MAX_NAME: nat := 11 // EMU_MAX_CHAR_KEYNAME without the terminator
  const MAX_CHAIN: nat := 256

  type Value = seq<byte>

  /** KeyData with the values of its nextKey chain; its own value comes first. */
  datatype Slot = Slot(provider: nat, name: string, values: seq<Value>)

  function Stored(name: string): string { if |name| <= MAX_NAME then name else name[..MAX_NAME] }

  // ----- what is asked for -----

  datatype Query = Query(provider: nat, mask: nat, name: string, maxLength: nat, matchLength: bool)

  function Exact(provider: nat, name: string): Query { Query(provider, 0, name, 0, false) }

  /** provider & ~mask. */
  function Masked(provider: nat, mask: nat): int {
    if mask == 0 then provider else provider - And(provider, mask)
  }

  /** 'F' keys go by provider alone: their name is an expiration date. */
  predicate Hits(id: char, s: Slot, q: Query) {
    && Masked(s.provider, q.mask) == q.provider
    && (id == 'F' || s.name == q.name)
    && (q.matchLength ==> s.values != [] && |s.values[0]| == q.maxLength)
  }

  /** The slot hit after n others, or the number of slots. */
  function FindSlot(id: char, slots: seq<Slot>, q: Query, n: nat): (i: nat)
    ensures i <= |slots|
    ensures i < |slots| ==> Hits(id, slots[i], q)
    ensures n == 0 ==> forall j :: 0 <= j < i ==> !Hits(id, slots[j], q)
    decreases |slots|
  {
    if slots == [] then 0
    else if Hits(id, slots[0], q) then if n == 0 then 0 else 1 + FindSlot(id, slots[1..], q, n - 1)
    else 1 + FindSlot(id, slots[1..], q, n)
  }

  // ----- setting -----

  /** memcmp over the shorter length. */
  predicate SamePrefix(a: Value, b: Value) {
    var n := if |a| < |b| then |a| else |b|;
    a[..n] == b[..n]
  }

  predicate HasDuplicate(values: seq<Value>, key: Value) { exists i :: 0 <= i < |values| && SamePrefix(values[i], key) }

  /** A full chain loses its last value. */
  function Extend(values: seq<Value>, key: Value): seq<Value> {
    if |values| < MAX_CHAIN then values + [key] else values[..MAX_CHAIN - 1] + [key]
  }

  /** emu_set_key after its preparations. */
  function SetKey(id: char, slots: seq<Slot>, provider: nat, name: string, key: Value): (bool, seq<Slot>) {
    var i := FindSlot(id, slots, Exact(provider, name), 0);
    if i == |slots| then (true, slots + [Slot(provider, Stored(name), [key])])
    else if id != 'I' then
      (true, slots[i := Slot(slots[i].provider, if id == 'F' then Stored(name) else slots[i].name,
                             if slots[i].values == [] then [key] else slots[i].values[0 := key])])
    else if HasDuplicate(slots[i].values, key) then (false, slots)
    else (true, slots[i := slots[i].(values := Extend(slots[i].values, key))])
  }

  function UpperChar(c: char): char { if 'a' <= c <= 'z' then c - 'a' + 'A' else c }

  function Upper(s: string): (r: string)
    ensures |r| == |s|
  {
    seq(|s|, (i: nat) requires i < |s| => UpperChar(s[i]))
  }

  /** strcmp(a, b) >= 0. */
  predicate NotBefore(a: string, b: string)
    decreases |a|
  {
    if b == [] then true else if a == [] then false else if a[0] != b[0] then a[0] > b[0] else NotBefore(a[1..], b[1..])
  }

  /** Where the reader drops expired keys, the date of today. */
  datatype Dates = Ignored | Checked(today: string)

  /** One call of emu_set_key. */
  datatype Command = Command(provider: nat, name: string, key: Value, dates: Dates)

  /** A legacy BISS key has its two checksum bytes put in. */
  function WithChecksums(k: Value): (r: Value)
    requires |k| == 6
    ensures |r| == 8
  {
    [k[0], k[1], k[2], Add(Add(k[0], k[1]), k[2]), k[3], k[4], k[5], Add(Add(k[3], k[4]), k[5])]
  }

  /** Nothing is lost, and each half of the result ends in the sum of its three bytes. */
  lemma ChecksumsAdded(k: Value)
    requires |k| == 6
    ensures
      var r := WithChecksums(k);
      && r[..3] + r[4..7] == k
      && r[3] == SumOf(r[0], r[1], r[2]) && r[7] == SumOf(r[4], r[5], r[6])
  {
    hide Add, SumOf;
    AddTwice(k[0], k[1], k[2]);
    AddTwice(k[3], k[4], k[5]);
  }

  function SumOf(a: byte, b: byte, c: byte): byte { (a as int + b as int + c as int) % 256 }

  lemma AddTwice(a: byte, b: byte, c: byte)
    ensures Add(Add(a, b), c) == SumOf(a, b, c)
  {
  }

  const EVERGREEN: string := "00000000"

  function BissName(name: string): string { if name == "00" || name == "01" then EVERGREEN else name }

  /** The preparations of emu_set_key: what will be stored under which provider and name. */
  function Prepare(id: char, c: Command): Option<(nat, string, Value)> {
    var upper := Upper(c.name);
    var name := if id == 'F' then BissName(upper) else upper;
    if id == 'F' && (|name| != 8 || (c.dates.Checked? && name != EVERGREEN && NotBefore(c.dates.today, name))) then None
    else
      Some((if id == 'I' && c.provider < 0xFFFF then c.provider * 0x100 else c.provider, name,
            if id == 'F' && |c.key| == 6 then WithChecksums(c.key) else c.key))
  }

  function Set(id: char, slots: seq<Slot>, c: Command): (bool, seq<Slot>) {
    match Prepare(id, c)
    case None => (false, slots)
    case Some((provider, name, key)) => SetKey(id, slots, provider, name, key)
  }

  // ----- finding -----

  /** What is copied into a buffer of n bytes. */
  function Fit(v: Value, n: nat): (r: Value)
    ensures |r| == n
  {
    if |v| >= n then v[..n] else v + Zeros(n - |v|)
  }

  datatype Found = Found(key: Value, name: string, provider: nat)

  /** emu_find_key. With a mask keyRef counts slots, in a byte; without it, values of the chain. */
  function FindKey(id: char, slots: seq<Slot>, q: Query, keyRef: nat): Option<Found> {
    var i := FindSlot(id, slots, q, if q.mask == 0 then 0 else keyRef);
    var ref := if q.mask == 0 then keyRef else 0;
    if i == |slots| || (q.mask != 0 && keyRef >= 256) || ref >= |slots[i].values| then None
    else Some(Found(Fit(slots[i].values[ref], q.maxLength), slots[i].name, slots[i].provider))
  }

  /** emu_update_key: nothing is done if some value of the chain reads as the new one. */
  function UpdateKey(id: char, slots: seq<Slot>, c: Command): (bool, seq<Slot>) {
    if AlreadyThere(id, slots, c) then (false, slots) else Set(id, slots, c)
  }

  function QueryFor(c: Command): Query { Query(c.provider, 0, c.name, |c.key|, false) }

  predicate AlreadyThere(id: char, slots: seq<Slot>, c: Command) {
    var i := FindSlot(id, slots, QueryFor(c), 0);
    i < |slots| && exists k :: 0 <= k < |slots[i].values| && Fit(slots[i].values[k], |c.key|) == c.key
  }

  // ----- what every container keeps -----

  /** What a slot is found by. */
  datatype Name = Name(provider: nat, name: string)

  function NameOf(id: char, provider: nat, name: string): Name { Name(provider, if id == 'F' then "" else name) }

  predicate UniqueNames(id: char, slots: seq<Slot>) {
    forall i, j :: 0 <= i < j < |slots| ==> NameOf(id, slots[i].provider, slots[i].name) != NameOf(id, slots[j].provider, slots[j].name)
  }

  predicate AllDifferent(values: seq<Value>) { forall i, j :: 0 <= i < j < |values| ==> !SamePrefix(values[i], values[j]) }

  predicate GoodSlot(id: char, s: Slot) {
    && |s.name| <= MAX_NAME && 1 <= |s.values| <= MAX_CHAIN && AllDifferent(s.values)
    && (id != 'I' ==> |s.values| == 1)
  }

  predicate AllGood(id: char, slots: seq<Slot>) { forall i :: 0 <= i < |slots| ==> GoodSlot(id, slots[i]) }

  predicate Good(id: char, slots: seq<Slot>) { UniqueNames(id, slots) && AllGood(id, slots) }

  lemma HitsExact(id: char, s: Slot, provider: nat, name: string)
    ensures Hits(id, s, Exact(provider, name)) <==> NameOf(id, s.provider, s.name) == NameOf(id, provider, name)
  {
  }

  lemma ExtendGood(values: seq<Value>, key: Value)
    requires AllDifferent(values) && !HasDuplicate(values, key) && |values| <= MAX_CHAIN
    ensures AllDifferent(Extend(values, key)) && 1 <= |Extend(values, key)| <= MAX_CHAIN
  {
    hide SamePrefix;
    var r := Extend(values, key);
    forall i, j | 0 <= i < j < |r|
      ensures !SamePrefix(r[i], r[j])
    {
      assert r[i] == values[i];
    }
  }

  /** A set keeps every slot good, whatever the name. */
  lemma SetKeyKeepsSlots(id: char, slots: seq<Slot>, provider: nat, name: string, key: Value)
    requires AllGood(id, slots)
    ensures AllGood(id, SetKey(id, slots, provider, name, key).1)
  {
    hide FindSlot, AllDifferent, HasDuplicate, Extend, Hits;
    var i := FindSlot(id, slots, Exact(provider, name), 0);
    SingleGood(key);
    if i < |slots| {
      assert GoodSlot(id, slots[i]);
      if id == 'I' {
        if !HasDuplicate(slots[i].values, key) {
          ExtendGood(slots[i].values, key);
        }
      } else {
        assert slots[i].values[0 := key] == [key];
      }
    }
  }

  /** A set keeps the container good if the name fits its field. */
  lemma SetKeyKeepsGood(id: char, slots: seq<Slot>, provider: nat, name: string, key: Value)
    requires Good(id, slots) && |name| <= MAX_NAME
    ensures Good(id, SetKey(id, slots, provider, name, key).1)
  {
    hide FindSlot, AllDifferent, HasDuplicate, Extend, Hits;
    var i := FindSlot(id, slots, Exact(provider, name), 0);
    var t := SetKey(id, slots, provider, name, key).1;
    SingleGood(key);
    forall j | 0 <= j < |slots|
      ensures Hits(id, slots[j], Exact(provider, name)) <==> NameOf(id, slots[j].provider, slots[j].name) == NameOf(id, provider, name)
    {
      HitsExact(id, slots[j], provider, name);
    }
    if i < |slots| {
      assert GoodSlot(id, slots[i]);
      if id == 'I' {
        if !HasDuplicate(slots[i].values, key) {
          ExtendGood(slots[i].values, key);
        }
      } else {
        assert slots[i].values[0 := key] == [key];
      }
      assert forall j :: 0 <= j < |t| ==> NameOf(id, t[j].provider, t[j].name) == NameOf(id, slots[j].provider, slots[j].name);
    }
  }

  lemma SingleGood(key: Value)
    ensures AllDifferent([key])
  {
  }

  /** Names that do not fit are cut when stored but compared in full, so the same call again makes
      a second slot: names are kept apart exactly if they fit. */
  ghost predicate KeepsUnique(id: char, name: string) {
    forall slots, provider, key :: Good(id, slots) ==> UniqueNames(id, SetKey(id, slots, provider, name, key).1)
  }

  lemma KeepsUniqueIff(id: char, name: string)
    requires id != 'F'
    ensures KeepsUnique(id, name) <==> |name| <= MAX_NAME
  {
    hide FindSlot, AllDifferent, GoodSlot;
    if |name| <= MAX_NAME {
      forall slots, provider, key | Good(id, slots)
        ensures UniqueNames(id, SetKey(id, slots, provider, name, key).1)
      {
        SetKeyKeepsGood(id, slots, provider, name, key);
      }
    } else {
      LongNameTwice(id, name);
    }
  }

  lemma LongNameTwice(id: char, name: string)
    requires id != 'F' && |name| > MAX_NAME
    ensures
      var once := SetKey(id, [], 0, name, []).1;
      Good(id, once) && !UniqueNames(id, SetKey(id, once, 0, name, []).1)
  {
    var once := SetKey(id, [], 0, name, []).1;
    assert once == [Slot(0, Stored(name), [[]])];
    assert FindSlot(id, once, Exact(0, name), 0) == 1;
    var twice := SetKey(id, once, 0, name, []).1;
    assert twice[0] == twice[1];
  }

  // ----- the container as a map -----

  function ValuesOf(id: char, slots: seq<Slot>, provider: nat, name: string): Option<seq<Value>> {
    var i := FindSlot(id, slots, Exact(provider, name), 0);
    if i < |slots| then Some(slots[i].values) else None
  }

  function MapSet(id: char, m: map<Name, seq<Value>>, n: Name, key: Value): (bool, map<Name, seq<Value>>) {
    if n !in m || id != 'I' then (true, m[n := [key]])
    else if HasDuplicate(m[n], key) then (false, m)
    else (true, m[n := Extend(m[n], key)])
  }

  function At(m: map<Name, seq<Value>>, n: Name): Option<seq<Value>> { if n in m then Some(m[n]) else None }

  ghost predicate Refines(id: char, slots: seq<Slot>, m: map<Name, seq<Value>>) {
    forall provider, name :: ValuesOf(id, slots, provider, name) == At(m, NameOf(id, provider, name))
  }

  /** In a container with unique names a hit is the first hit. */
  lemma OnlyHit(id: char, slots: seq<Slot>, provider: nat, name: string, i: nat)
    requires UniqueNames(id, slots) && i < |slots| && NameOf(id, slots[i].provider, slots[i].name) == NameOf(id, provider, name)
    ensures FindSlot(id, slots, Exact(provider, name), 0) == i
  {
    hide FindSlot, Hits;
    var j := FindSlot(id, slots, Exact(provider, name), 0);
    HitsExact(id, slots[i], provider, name);
    if j < |slots| {
      HitsExact(id, slots[j], provider, name);
    }
  }

  lemma NoHit(id: char, slots: seq<Slot>, provider: nat, name: string)
    requires forall i :: 0 <= i < |slots| ==> NameOf(id, slots[i].provider, slots[i].name) != NameOf(id, provider, name)
    ensures FindSlot(id, slots, Exact(provider, name), 0) == |slots|
  {
    hide FindSlot, Hits;
    var j := FindSlot(id, slots, Exact(provider, name), 0);
    if j < |slots| {
      HitsExact(id, slots[j], provider, name);
    }
  }

  /** What is found where after a set. */
  lemma SetKeyLookup(id: char, slots: seq<Slot>, provider: nat, name: string, key: Value, p: nat, n: string)
    requires Good(id, slots) && |name| <= MAX_NAME
    ensures
      var (ok, t) := SetKey(id, slots, provider, name, key);
      ValuesOf(id, t, p, n) ==
        if NameOf(id, p, n) != NameOf(id, provider, name) then ValuesOf(id, slots, p, n)
        else if ValuesOf(id, slots, provider, name) == None || id != 'I' then Some([key])
        else if ok then Some(Extend(ValuesOf(id, slots, provider, name).value, key)) else ValuesOf(id, slots, provider, name)
  {
    hide FindSlot, Hits, GoodSlot, Extend, HasDuplicate;
    SetKeyKeepsGood(id, slots, provider, name, key);
    var t := SetKey(id, slots, provider, name, key).1;
    var i := FindSlot(id, slots, Exact(provider, name), 0);
    SetKeyAt(id, slots, provider, name, key);
    if NameOf(id, p, n) == NameOf(id, provider, name) {
      OnlyHit(id, t, p, n, i);
      if i < |slots| {
        OnlyHit(id, slots, p, n, i);
      }
    } else {
      var j := FindSlot(id, slots, Exact(p, n), 0);
      if j < |slots| {
        HitsExact(id, slots[j], p, n);
        assert j != i;
        OnlyHit(id, t, p, n, j);
      } else {
        forall k | 0 <= k < |t|
          ensures NameOf(id, t[k].provider, t[k].name) != NameOf(id, p, n)
        {
          if k < |slots| {
            HitsExact(id, slots[k], p, n);
          }
        }
        NoHit(id, t, p, n);
      }
    }
  }

  /** Which slot a set changes, and how. */
  lemma SetKeyAt(id: char, slots: seq<Slot>, provider: nat, name: string, key: Value)
    requires Good(id, slots) && |name| <= MAX_NAME
    ensures
      var (ok, t) := SetKey(id, slots, provider, name, key);
      var i := FindSlot(id, slots, Exact(provider, name), 0);
      && i < |t| && |slots| <= |t| <= |slots| + 1 && (|t| > |slots| ==> i == |slots|)
      && (forall k :: 0 <= k < |slots| && k != i ==> t[k] == slots[k])
      && NameOf(id, t[i].provider, t[i].name) == NameOf(id, provider, name)
      && t[i].values == if i == |slots| || id != 'I' then [key] else if ok then Extend(slots[i].values, key) else slots[i].values
  {
    hide FindSlot, Hits, Extend, HasDuplicate, AllDifferent;
    var i := FindSlot(id, slots, Exact(provider, name), 0);
    if i < |slots| {
      HitsExact(id, slots[i], provider, name);
      assert GoodSlot(id, slots[i]);
      if id != 'I' {
        assert slots[i].values[0 := key] == [key];
      }
    }
  }

  lemma SetKeyRefines(id: char, slots: seq<Slot>, m: map<Name, seq<Value>>, provider: nat, name: string, key: Value)
    requires Good(id, slots) && Refines(id, slots, m) && |name| <= MAX_NAME
    ensures
      var r := SetKey(id, slots, provider, name, key);
      var r' := MapSet(id, m, NameOf(id, provider, name), key);
      r.0 == r'.0 && Refines(id, r.1, r'.1)
  {
    hide FindSlot, Hits, Good, Extend, HasDuplicate, ValuesOf, SetKey;
    var r := SetKey(id, slots, provider, name, key);
    var r' := MapSet(id, m, NameOf(id, provider, name), key);
    assert ValuesOf(id, slots, provider, name) == At(m, NameOf(id, provider, name));
    SetKeyOk(id, slots, provider, name, key);
    forall p, n
      ensures ValuesOf(id, r.1, p, n) == At(r'.1, NameOf(id, p, n))
    {
      SetKeyLookup(id, slots, provider, name, key, p, n);
      assert ValuesOf(id, slots, p, n) == At(m, NameOf(id, p, n));
    }
  }

  lemma SetKeyOk(id: char, slots: seq<Slot>, provider: nat, name: string, key: Value)
    ensures SetKey(id, slots, provider, name, key).0
      == (id != 'I' || match ValuesOf(id, slots, provider, name) case None => true case Some(values) => !HasDuplicate(values, key))
  {
  }

  // ----- every run -----

  /** The name a command will be stored under fits. */
  predicate NameFits(c: Command) { |c.name| <= MAX_NAME }

  function Run(id: char, slots: seq<Slot>, cs: seq<Command>): seq<Slot>
    decreases |cs|
  {
    if cs == [] then slots else Set(id, Run(id, slots, cs[..|cs| - 1]), cs[|cs| - 1]).1
  }

  function RunMap(id: char, m: map<Name, seq<Value>>, cs: seq<Command>): map<Name, seq<Value>>
    decreases |cs|
  {
    if cs == [] then m
    else
      var before := RunMap(id, m, cs[..|cs| - 1]);
      match Prepare(id, cs[|cs| - 1])
      case None => before
      case Some((provider, name, key)) => MapSet(id, before, NameOf(id, provider, name), key).1
  }

  lemma PreparedName(id: char, c: Command)
    requires NameFits(c) && Prepare(id, c).Some?
    ensures |Prepare(id, c).value.1| <= MAX_NAME
  {
  }

  /** After every sequence of calls the container is good and is the map they describe. */
  lemma {:induction false} EveryRun(id: char, cs: seq<Command>)
    requires forall i :: 0 <= i < |cs| ==> NameFits(cs[i])
    ensures Good(id, Run(id, [], cs)) && Refines(id, Run(id, [], cs), RunMap(id, map[], cs))
    decreases |cs|
  {
    hide Good, Refines, Prepare, SetKey, MapSet, NameFits;
    if cs == [] {
      EmptyRefines(id);
    } else {
      var before, c := cs[..|cs| - 1], cs[|cs| - 1];
      EveryRun(id, before);
      var slots, m := Run(id, [], before), RunMap(id, map[], before);
      match Prepare(id, c) {
        case None =>
        case Some((provider, name, key)) =>
          PreparedName(id, c);
          SetKeyKeepsGood(id, slots, provider, name, key);
          SetKeyRefines(id, slots, m, provider, name, key);
      }
    }
  }

  lemma EmptyRefines(id: char)
    ensures Good(id, []) && Refines(id, [], map[])
  {
  }

  /** The value of the last accepted call for a name. */
  function LastSet(id: char, cs: seq<Command>, n: Name): Option<Value>
    decreases |cs|
  {
    if cs == [] then None
    else
      match Prepare(id, cs[|cs| - 1])
      case Some((provider, name, key)) =>
        if NameOf(id, provider, name) == n then Some(key) else LastSet(id, cs[..|cs| - 1], n)
      case None => LastSet(id, cs[..|cs| - 1], n)
  }

  lemma {:induction false} MapIsLastSet(id: char, cs: seq<Command>, n: Name)
    requires id != 'I'
    ensures At(RunMap(id, map[], cs), n) == match LastSet(id, cs, n) case None => None case Some(key) => Some([key])
    decreases |cs|
  {
    hide Prepare;
    if cs != [] {
      MapIsLastSet(id, cs[..|cs| - 1], n);
    }
  }

  /** A key that is no Irdeto key is found with the value that was set last, cut or filled up to
      the buffer, and is not found exactly if it was never set. */
  lemma FindsLastSet(id: char, cs: seq<Command>, provider: nat, name: string, maxLength: nat)
    requires id != 'I' && forall i :: 0 <= i < |cs| ==> NameFits(cs[i])
    ensures
      var found := FindKey(id, Run(id, [], cs), Query(provider, 0, name, maxLength, false), 0);
      match LastSet(id, cs, NameOf(id, provider, name))
      case None => found == None
      case Some(key) => found.Some? && found.value.key == Fit(key, maxLength) && found.value.provider == provider
  {
    hide Run, RunMap, LastSet, FindSlot, Good, Fit, Hits;
    var slots := Run(id, [], cs);
    EveryRun(id, cs);
    MapIsLastSet(id, cs, NameOf(id, provider, name));
    assert ValuesOf(id, slots, provider, name) == At(RunMap(id, map[], cs), NameOf(id, provider, name));
    SameHits(id, slots, Query(provider, 0, name, maxLength, false));
    var i := FindSlot(id, slots, Exact(provider, name), 0);
    if i < |slots| {
      HitsExact(id, slots[i], provider, name);
    }
  }

  /** Without mask and length the buffer size does not matter to what is hit. */
  lemma {:induction false} SameHits(id: char, slots: seq<Slot>, q: Query)
    requires q.mask == 0 && !q.matchLength
    ensures FindSlot(id, slots, q, 0) == FindSlot(id, slots, Exact(q.provider, q.name), 0)
    decreases |slots|
  {
    if slots != [] {
      SameHits(id, slots[1..], q);
    }
  }

  /** keyRef k reads the k-th value of a chain and nothing behind its end. */
  lemma FindsInChain(id: char, slots: seq<Slot>, provider: nat, name: string, maxLength: nat, keyRef: nat)
    requires Good(id, slots)
    ensures
      var found := FindKey(id, slots, Query(provider, 0, name, maxLength, false), keyRef);
      match ValuesOf(id, slots, provider, name)
      case None => found == None
      case Some(values) =>
        && 1 <= |values| <= MAX_CHAIN && AllDifferent(values)
        && (found.Some? <==> keyRef < |values|)
        && (found.Some? ==> found.value.key == Fit(values[keyRef], maxLength))
  {
    hide FindSlot, Fit, Hits, AllDifferent;
    SameHits(id, slots, Query(provider, 0, name, maxLength, false));
    var i := FindSlot(id, slots, Exact(provider, name), 0);
    if i < |slots| {
      assert GoodSlot(id, slots[i]);
    }
  }

  /** An accepted Irdeto key is at the end of its chain. */
  lemma IrdetoSetFinds(slots: seq<Slot>, provider: nat, name: string, key: Value, maxLength: nat)
    requires Good('I', slots) && |name| <= MAX_NAME && SetKey('I', slots, provider, name, key).0
    ensures
      var t := SetKey('I', slots, provider, name, key).1;
      var values := ValuesOf('I', t, provider, name);
      && values.Some? && values.value != []
      && var found := FindKey('I', t, Query(provider, 0, name, maxLength, false), |values.value| - 1);
         found.Some? && found.value.key == Fit(key, maxLength)
  {
    hide FindSlot, Fit, Hits, SetKey, Good, FindKey;
    SetKeyLookup('I', slots, provider, name, key, provider, name);
    SetKeyKeepsGood('I', slots, provider, name, key);
    var t := SetKey('I', slots, provider, name, key).1;
    var values := ValuesOf('I', t, provider, name).value;
    FindsInChain('I', t, provider, name, maxLength, |values| - 1);
  }

  /** After an update of any kind but BISS and Irdeto the new value is what a lookup of its
      length reads, whether or not something was stored. */
  lemma UpdateFinds(id: char, slots: seq<Slot>, c: Command)
    requires Good(id, slots) && id != 'F' && id != 'I' && NameFits(c) && Upper(c.name) == c.name
    ensures
      var found := FindKey(id, UpdateKey(id, slots, c).1, QueryFor(c), 0);
      found.Some? && found.value.key == c.key
  {
    hide FindSlot, Hits, SetKey, Upper;
    SameHits(id, slots, QueryFor(c));
    var t := UpdateKey(id, slots, c).1;
    SameHits(id, t, QueryFor(c));
    if AlreadyThere(id, slots, c) {
      var i := FindSlot(id, slots, QueryFor(c), 0);
      assert GoodSlot(id, slots[i]);
    } else {
      SetKeyLookup(id, slots, c.provider, c.name, c.key, c.provider, c.name);
    }
  }

  /** After an Irdeto update (of a provider stored as it is) some value of the chain agrees with
      the new one as far as both go; if something was stored, it is the value itself. */
  lemma IrdetoUpdateFinds(slots: seq<Slot>, c: Command)
    requires Good('I', slots) && NameFits(c) && Upper(c.name) == c.name && c.provider >= 0xFFFF
    ensures
      var (ok, t) := UpdateKey('I', slots, c);
      && ValuesOf('I', t, c.provider, c.name).Some?
      && var values := ValuesOf('I', t, c.provider, c.name).value;
         if ok then values != [] && values[|values| - 1] == c.key else t == slots && HasDuplicate(values, c.key)
  {
    hide FindSlot, Hits, SetKey, Upper, SamePrefix;
    SameHits('I', slots, QueryFor(c));
    if AlreadyThere('I', slots, c) {
      var i := FindSlot('I', slots, QueryFor(c), 0);
      var k :| 0 <= k < |slots[i].values| && Fit(slots[i].values[k], |c.key|) == c.key;
      FitAgrees(slots[i].values[k], c.key);
    } else {
      SetKeyLookup('I', slots, c.provider, c.name, c.key, c.provider, c.name);
      SetKeyOk('I', slots, c.provider, c.name, c.key);
      RejectedUnchanged(slots, c.provider, c.name, c.key);
    }
  }

  lemma FitAgrees(v: Value, key: Value)
    requires Fit(v, |key|) == key
    ensures SamePrefix(v, key)
  {
    if |v| < |key| {
      assert (v + Zeros(|key| - |v|))[..|v|] == v;
    }
  }

  lemma RejectedUnchanged(slots: seq<Slot>, provider: nat, name: string, key: Value)
    ensures !SetKey('I', slots, provider, name, key).0 ==> SetKey('I', slots, provider, name, key).1 == slots
  {
  }

  // ----- dates and masks -----

  lemma {:induction false} OrderTransitive(a: string, b: string, c: string)
    requires NotBefore(a, b) && NotBefore(b, c)
    ensures NotBefore(a, c)
    decreases |a|
  {
    if a != [] && b != [] && c != [] && a[0] == b[0] == c[0] {
      OrderTransitive(a[1..], b[1..], c[1..]);
    }
  }

  /** A key that is refused as expired stays refused on every later day. */
  lemma ExpiredStays(c: Command, today: string, later: string)
    requires NotBefore(later, today) && Prepare('F', c.(dates := Checked(today))) == None
    ensures Prepare('F', c.(dates := Checked(later))) == None
  {
    hide NotBefore;
    var name := BissName(Upper(c.name));
    if |name| == 8 {
      OrderTransitive(later, today, name);
    }
  }

  /** How many of the slots are hit. */
  function CountHits(id: char, slots: seq<Slot>, q: Query): nat
    decreases |slots|
  {
    if slots == [] then 0 else (if Hits(id, slots[0], q) then 1 else 0) + CountHits(id, slots[1..], q)
  }

  /** Under a mask keyRef counts through all slots that are hit, in order: slot i is found with n
      exactly if it is hit and n slots before it are. */
  lemma {:induction false} FindsNthHit(id: char, slots: seq<Slot>, q: Query, n: nat, i: nat)
    requires i < |slots|
    ensures FindSlot(id, slots, q, n) == i <==> Hits(id, slots[i], q) && CountHits(id, slots[..i], q) == n
    decreases |slots|
  {
    hide Hits;
    if i == 0 {
      assert slots[..0] == [];
    } else {
      assert slots[..i][1..] == slots[1..][..i - 1] && slots[..i][0] == slots[0];
      if n > 0 || !Hits(id, slots[0], q) {
        FindsNthHit(id, slots[1..], q, if Hits(id, slots[0], q) then n - 1 else n, i - 1);
      }
    }
  }

  /** With a mask, too, nothing is found exactly when there are not enough hits. */
  lemma {:induction false} NoNthHit(id: char, slots: seq<Slot>, q: Query, n: nat)
    ensures FindSlot(id, slots, q, n) == |slots| <==> CountHits(id, slots, q) <= n
    decreases |slots|
  {
    hide Hits;
    if slots != [] && (n > 0 || !Hits(id, slots[0], q)) {
      NoNthHit(id, slots[1..], q, if Hits(id, slots[0], q) then n - 1 else n);
    }
  }

  /** Enumerating the slots that a mask hits: keyRef k finds the k-th of them, as long as k fits
      the byte that counts, and nothing exactly when there is none or k does not fit. */
  lemma {:induction false} MaskedFindIff(id: char, slots: seq<Slot>, q: Query, keyRef: nat)
    requires Good(id, slots) && q.mask != 0
    ensures FindKey(id, slots, q, keyRef).Some? <==> keyRef < CountHits(id, slots, q) && keyRef < 256
  {
    hide FindSlot, Hits, CountHits, Fit;
    NoNthHit(id, slots, q, keyRef);
    var i := FindSlot(id, slots, q, keyRef);
    if i < |slots| {
      assert GoodSlot(id, slots[i]);
    }
  }
}
