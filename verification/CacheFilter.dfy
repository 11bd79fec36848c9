/** The filter table of a cache-exchange peer (cacheex_ecm_filter): what it decides, and the two
    forms in which it is sent so that the other side filters before pushing. */
module CacheFilter {
  import opened Bytes

  type int32 = x: int | -0x80000000 <= x < 0x80000000

  /** CECSPVALUETAB_DATA without the wait times, which are not sent. */
  datatype Filter = Filter(caid: int32, cmask: int32, prid: int32, srvid: int32)

  /** The parts of a request that the table looks at, in the program's widths. */
  datatype Request = Request(caid: nat, prid: nat, srvid: nat)

  predicate InWidth(er: Request) { er.caid < 0x10000 && er.prid < 0x100000000 && er.srvid < 0x10000 }

  function ToInt32(n: nat): int32 {
    var m := n % 0x100000000;
    if m >= 0x80000000 then m - 0x100000000 else m
  }

  function ToUint32(x: int32): nat { x % 0x100000000 }

  lemma And16(x: nat)
    requires x < 0x10000
    ensures And(x, 0xFFFF) == x
  {
    assert Pow2(8) == 256 && Pow2(16) == 0x10000;
    AndAllOnes(x, 16);
  }

  // ----- the decision -----

  predicate CaidMatches(d: Filter, caid: nat) {
    d.caid == caid || d.caid == caid / 0x100 || (d.cmask >= 0 && And(caid, d.cmask) == d.caid) || d.caid == -1
  }

  predicate Matches(d: Filter, er: Request) {
    && d.caid > 0 && CaidMatches(d, er.caid)
    && ((d.prid >= 0 && d.prid == ToInt32(er.prid)) || d.prid == -1)
    && ((d.srvid >= 0 && d.srvid == er.srvid) || d.srvid == -1)
  }

  /** chk_csp_ctab: what the table lets through. */
  predicate Passes(tab: seq<Filter>, er: Request) {
    er.caid == 0 || tab == [] || exists i :: 0 <= i < |tab| && Matches(tab[i], er)
  }

  // ----- when two tables mean the same -----

  /** No request is matched by two entries. */
  ghost predicate Disjoint(tab: seq<Filter>) {
    forall i, j, er :: 0 <= i < j < |tab| && InWidth(er) && Matches(tab[i], er) ==> !Matches(tab[j], er)
  }

  /** The tables decide every request alike. */
  ghost predicate SameMeaning(x: seq<Filter>, y: seq<Filter>) { forall er :: InWidth(er) ==> Passes(x, er) == Passes(y, er) }

  /** Some request is let through by the entry. */
  predicate Able(d: Filter) { 0 < d.caid <= 0xFFFF && d.prid >= -1 && -1 <= d.srvid <= 0xFFFF }

  /** Such a request. */
  function Own(d: Filter): Request
    requires Able(d)
  {
    Request(d.caid, if d.prid < 0 then 0 else d.prid, if d.srvid < 0 then 0 else d.srvid)
  }

  lemma OwnMatches(d: Filter)
    requires Able(d)
    ensures InWidth(Own(d)) && Matches(d, Own(d)) && Own(d).caid != 0
  {
    hide And;
  }

  lemma {:induction false} AndAtMost(x: nat, y: nat)
    ensures And(x, y) <= x
    decreases x
  {
    if x > 0 {
      AndAtMost(x / 2, y / 2);
    }
  }

  lemma OnlyAbleMatches(d: Filter, er: Request)
    requires InWidth(er) && Matches(d, er)
    ensures Able(d) && er.caid != 0
  {
    if d.cmask >= 0 {
      AndAtMost(er.caid, d.cmask);
    }
  }

  lemma OneMatches(tab: seq<Filter>, i: nat, j: nat, er: Request)
    requires Disjoint(tab) && i < |tab| && j < |tab| && i != j && InWidth(er) && Matches(tab[i], er)
    ensures !Matches(tab[j], er)
  {
    hide Matches;
  }

  /** For one caid, two masks let the same caids through. */
  ghost predicate SameMasks(d: Filter, e: Filter) { forall c: nat :: c < 0x10000 ==> CaidMatches(d, c) == CaidMatches(e, c) }

  /** Two entries of one caid let the same requests through: none at all, or with equal fields and
      masks that make no difference. */
  ghost predicate Alike(d: Filter, e: Filter) {
    (Able(d) <==> Able(e)) && (Able(d) ==> SameMasks(d, e) && d.prid == e.prid && d.srvid == e.srvid)
  }

  ghost predicate SameMatches(d: Filter, e: Filter) { forall er :: InWidth(er) ==> Matches(d, er) == Matches(e, er) }

  lemma AlikeIff(d: Filter, e: Filter)
    requires d.caid == e.caid
    ensures Alike(d, e) <==> SameMatches(d, e)
  {
    if Alike(d, e) {
      forall er | InWidth(er)
        ensures Matches(d, er) == Matches(e, er)
      {
        AlikeMatches(d, e, er);
        AlikeMatches(e, d, er);
      }
    } else {
      if Able(d) {
        UnlikeTells(d, e);
      } else {
        UnlikeTells(e, d);
      }
    }
  }

  lemma AlikeMatches(d: Filter, e: Filter, er: Request)
    requires d.caid == e.caid && Alike(d, e) && InWidth(er)
    ensures Matches(d, er) ==> Matches(e, er)
  {
    hide CaidMatches;
    if Matches(d, er) {
      OnlyAbleMatches(d, er);
    }
  }

  lemma UnlikeTells(d: Filter, e: Filter)
    requires d.caid == e.caid && Able(d) && !Alike(d, e)
    ensures !SameMatches(d, e)
  {
    hide And;
    var er := Own(d);
    OwnMatches(d);
    if !Able(e) {
      if Matches(e, er) {
        OnlyAbleMatches(e, er);
      }
    } else if d.prid != e.prid {
      OtherPrid(d, e);
      OtherPrid(e, d);
    } else if d.srvid != e.srvid {
      OtherSrvid(d, e);
      OtherSrvid(e, d);
    } else {
      var c: nat :| c < 0x10000 && CaidMatches(d, c) != CaidMatches(e, c);
      var other := er.(caid := c);
      assert Matches(d, other) == CaidMatches(d, c) && Matches(e, other) == CaidMatches(e, c);
    }
  }

  lemma OtherPrid(d: Filter, e: Filter)
    requires d.caid == e.caid && Able(d) && Able(e) && d.prid != e.prid && (e.prid >= 0 || d.prid >= 0)
    ensures e.prid >= 0 ==> !SameMatches(d, e)
  {
    hide And;
    OwnMatches(d);
    if e.prid >= 0 {
      var er := if d.prid >= 0 then Own(d) else Own(d).(prid := e.prid as nat + 1);
      assert InWidth(er) && Matches(d, er) && !Matches(e, er);
    }
  }

  lemma OtherSrvid(d: Filter, e: Filter)
    requires d.caid == e.caid && Able(d) && Able(e) && d.srvid != e.srvid
    ensures e.srvid >= 0 ==> !SameMatches(d, e)
  {
    hide And;
    OwnMatches(d);
    if e.srvid >= 0 {
      var er := if d.srvid >= 0 then Own(d) else Own(d).(srvid := if e.srvid == 0 then 1 else 0);
      assert InWidth(er) && Matches(d, er) && !Matches(e, er);
    }
  }

  /** Entries in different places of the two tables never match one request. */
  ghost predicate Apart(x: seq<Filter>, y: seq<Filter>) {
    forall i, j, er :: 0 <= i < |x| && 0 <= j < |y| && i != j && InWidth(er) && Matches(x[i], er) ==> !Matches(y[j], er)
  }

  /** Such tables mean the same exactly if they do place by place. */
  lemma PlacewiseIff(x: seq<Filter>, y: seq<Filter>)
    requires |x| == |y| > 0 && Apart(x, y)
    ensures SameMeaning(x, y) <==> forall i :: 0 <= i < |x| ==> SameMatches(x[i], y[i])
  {
    hide Matches;
    if SameMeaning(x, y) {
      forall i, er | 0 <= i < |x| && InWidth(er)
        ensures Matches(x[i], er) == Matches(y[i], er)
      {
        assert Passes(x, er) == Passes(y, er);
        if Matches(x[i], er) {
          OnlyAbleMatches(x[i], er);
        }
        if Matches(y[i], er) {
          OnlyAbleMatches(y[i], er);
        }
      }
    }
  }

  // ----- the columnar form -----

  /** The columns in the order they are sent: caid, cmask, prid, srvid. */
  function Field(d: Filter, f: nat): int32
    requires f < 4
  {
    if f == 0 then d.caid else if f == 1 then d.cmask else if f == 2 then d.prid else d.srvid
  }

  /** One column from slot j on; unused slots stay zero. */
  function Column(tab: seq<Filter>, f: nat, j: nat, slots: nat): (s: seq<byte>)
    requires f < 4 && j <= slots
    ensures |s| == 4 * (slots - j)
    decreases slots - j
  {
    if j == slots then [] else Slot(tab, f, j) + Column(tab, f, j + 1, slots)
  }

  function Slot(tab: seq<Filter>, f: nat, j: nat): (s: seq<byte>)
    requires f < 4
    ensures |s| == 4
  {
    if j < |tab| then Be4(ToUint32(Field(tab[j], f))) else [0, 0, 0, 0]
  }

  /** The message of camd35 (15 slots) and CCcam (30 slots). */
  function EncodeColumns(tab: seq<Filter>, slots: nat): (s: seq<byte>)
    ensures |s| == 2 + 16 * slots
  {
    Be2(|tab|) + Column(tab, 0, 0, slots) + Column(tab, 1, 0, slots) + Column(tab, 2, 0, slots) + Column(tab, 3, 0, slots)
  }

  function Word(b: seq<byte>, slots: nat, f: nat, j: nat): int32
    requires |b| == 2 + 16 * slots && f < 4 && j < slots
  {
    ToInt32(FromBe(b[2 + 4 * slots * f + 4 * j..2 + 4 * slots * f + 4 * j + 4]))
  }

  /** First the positive caids become entries, in order. */
  function Caids(b: seq<byte>, slots: nat, j: nat): (r: seq<int32>)
    requires |b| == 2 + 16 * slots && j <= slots
    ensures |r| <= j && forall i :: 0 <= i < |r| ==> r[i] > 0
  {
    if j == 0 then []
    else
      var caid := Word(b, slots, 0, j - 1);
      Caids(b, slots, j - 1) + if caid > 0 then [caid] else []
  }

  /** Then the other columns are laid over the entries there are. The count is not read. */
  function DecodeColumns(b: seq<byte>, slots: nat): (r: seq<Filter>)
    requires |b| == 2 + 16 * slots
    ensures |r| <= slots
  {
    var caids := Caids(b, slots, slots);
    seq(|caids|, (j: nat) requires j < |caids| =>
      Filter(caids[j], Word(b, slots, 1, j), Word(b, slots, 2, j), Word(b, slots, 3, j)))
  }

  predicate AllPositive(tab: seq<Filter>) { forall i :: 0 <= i < |tab| ==> tab[i].caid > 0 }

  lemma Int32Back(x: int32)
    ensures ToInt32(ToUint32(x)) == x && ToUint32(x) < 0x100000000
  {
  }

  lemma {:induction false} SlotAt(tab: seq<Filter>, f: nat, j: nat, k: nat, slots: nat)
    requires f < 4 && j <= k < slots
    ensures Column(tab, f, j, slots)[4 * (k - j)..4 * (k - j) + 4] == Slot(tab, f, k)
    decreases k - j
  {
    hide Slot;
    var s, rest := Column(tab, f, j, slots), Column(tab, f, j + 1, slots);
    assert s == Slot(tab, f, j) + rest;
    if j < k {
      SlotAt(tab, f, j + 1, k, slots);
      var a := 4 * (k - j);
      assert s[a..a + 4] == rest[a - 4..a];
    }
  }

  lemma ColumnSlices(n: seq<byte>, c: seq<byte>, m: seq<byte>, p: seq<byte>, s: seq<byte>, k: nat)
    requires |n| == 2 && |c| == k && |m| == k && |p| == k && |s| == k
    ensures
      var b := n + c + m + p + s;
      b[2..2 + k] == c && b[2 + k..2 + k + k] == m && b[2 + k + k..2 + k + k + k] == p && b[2 + k + k + k..] == s
  {
  }

  lemma InSlice(b: seq<byte>, lo: nat, hi: nat, x: seq<byte>, a: nat)
    requires lo <= hi <= |b| && b[lo..hi] == x && a + 4 <= |x|
    ensures b[lo + a..lo + a + 4] == x[a..a + 4]
  {
    var y := b[lo + a..lo + a + 4];
    forall i | 0 <= i < 4
      ensures y[i] == x[a..a + 4][i]
    {
      assert y[i] == b[lo..hi][a + i];
    }
  }

  /** Every column stands where it is read. */
  lemma ColumnAt(tab: seq<Filter>, slots: nat, f: nat, j: nat)
    requires f < 4 && j < slots
    ensures
      var a := 2 + 4 * slots * f + 4 * j;
      EncodeColumns(tab, slots)[a..a + 4] == Column(tab, f, 0, slots)[4 * j..4 * j + 4]
  {
    hide Be2, Column, Slot;
    var k := 4 * slots;
    ColumnSlices(Be2(|tab|), Column(tab, 0, 0, slots), Column(tab, 1, 0, slots), Column(tab, 2, 0, slots), Column(tab, 3, 0, slots), k);
    var b := EncodeColumns(tab, slots);
    var lo := if f == 0 then 2 else if f == 1 then 2 + k else if f == 2 then 2 + k + k else 2 + k + k + k;
    assert lo == 2 + k * f;
    assert b[lo..lo + k] == Column(tab, f, 0, slots);
    InSlice(b, lo, lo + k, Column(tab, f, 0, slots), 4 * j);
  }

  lemma WordBack(tab: seq<Filter>, slots: nat, f: nat, j: nat)
    requires f < 4 && j < slots
    ensures Word(EncodeColumns(tab, slots), slots, f, j) == if j < |tab| then Field(tab[j], f) else 0
  {
    hide Column, EncodeColumns, Be4, FromBe, ToInt32, ToUint32;
    ColumnAt(tab, slots, f, j);
    SlotAt(tab, f, 0, j, slots);
    if j < |tab| {
      var x := Field(tab[j], f);
      Int32Back(x);
      FromBe4(ToUint32(x));
    } else {
      ZeroWord();
    }
  }

  lemma ZeroWord()
    ensures ToInt32(FromBe([0, 0, 0, 0])) == 0
  {
    assert Be4(0) == [0, 0, 0, 0];
    FromBe4(0);
  }

  lemma {:induction false} CaidsBack(tab: seq<Filter>, slots: nat, j: nat)
    requires j <= slots && AllPositive(tab)
    ensures
      var caids := Caids(EncodeColumns(tab, slots), slots, j);
      |caids| == (if j < |tab| then j else |tab|) && forall i :: 0 <= i < |caids| ==> caids[i] == tab[i].caid
  {
    hide EncodeColumns, Word;
    if j > 0 {
      CaidsBack(tab, slots, j - 1);
      WordBack(tab, slots, 0, j - 1);
    }
  }

  /** A table with positive caids arrives whole up to the number of slots. */
  lemma ColumnsBack(tab: seq<Filter>, slots: nat)
    requires AllPositive(tab)
    ensures DecodeColumns(EncodeColumns(tab, slots), slots) == tab[..if slots < |tab| then slots else |tab|]
  {
    hide EncodeColumns, Word, Caids;
    CaidsBack(tab, slots, slots);
    var r := DecodeColumns(EncodeColumns(tab, slots), slots);
    forall j | 0 <= j < |r|
      ensures r[j] == tab[j]
    {
      WordBack(tab, slots, 1, j);
      WordBack(tab, slots, 2, j);
      WordBack(tab, slots, 3, j);
    }
  }

  /** A table arrives as it was sent exactly if it fits the slots and every caid is positive. */
  lemma ColumnsBackIff(tab: seq<Filter>, slots: nat)
    ensures DecodeColumns(EncodeColumns(tab, slots), slots) == tab <==> AllPositive(tab) && |tab| <= slots
  {
    hide EncodeColumns, Word;
    if AllPositive(tab) {
      ColumnsBack(tab, slots);
    }
  }

  /** Sending a table in columns preserves its meaning. */
  lemma ColumnsKeepMeaning(tab: seq<Filter>, slots: nat, er: Request)
    requires AllPositive(tab) && |tab| <= slots
    ensures Passes(DecodeColumns(EncodeColumns(tab, slots), slots), er) == Passes(tab, er)
  {
    hide DecodeColumns, EncodeColumns, Passes;
    ColumnsBackIff(tab, slots);
  }

  /** The configuration allows an entry without caid, in first place. */
  predicate FirstWithout(tab: seq<Filter>) { tab != [] && tab[0].caid <= 0 && AllPositive(tab[1..]) }

  /** What becomes of such a table: the first caid is dropped, and the other columns are laid one
      place off over the entries that are left. */
  function Shifted(tab: seq<Filter>): (r: seq<Filter>)
    requires tab != []
    ensures |r| == |tab| - 1
  {
    seq(|tab| - 1, (j: nat) requires j < |tab| - 1 => Filter(tab[j + 1].caid, tab[j].cmask, tab[j].prid, tab[j].srvid))
  }

  lemma {:induction false} CaidsShifted(tab: seq<Filter>, slots: nat, j: nat)
    requires 0 < j <= slots && FirstWithout(tab)
    ensures
      var caids := Caids(EncodeColumns(tab, slots), slots, j);
      |caids| == (if j < |tab| then j else |tab|) - 1 && forall i :: 0 <= i < |caids| ==> caids[i] == tab[i + 1].caid
  {
    hide EncodeColumns, Word;
    WordBack(tab, slots, 0, j - 1);
    if j > 1 {
      CaidsShifted(tab, slots, j - 1);
      assert j - 1 < |tab| ==> tab[1..][j - 2] == tab[j - 1];
    } else {
      assert Caids(EncodeColumns(tab, slots), slots, 0) == [];
    }
  }

  lemma ShiftedArrives(tab: seq<Filter>, slots: nat)
    requires FirstWithout(tab) && |tab| <= slots
    ensures DecodeColumns(EncodeColumns(tab, slots), slots) == Shifted(tab)
  {
    hide EncodeColumns, Word, Caids;
    CaidsShifted(tab, slots, slots);
    var r := DecodeColumns(EncodeColumns(tab, slots), slots);
    forall j | 0 <= j < |r|
      ensures r[j] == Shifted(tab)[j]
    {
      WordBack(tab, slots, 1, j);
      WordBack(tab, slots, 2, j);
      WordBack(tab, slots, 3, j);
    }
  }

  /** A single entry without caid lets nothing through here and everything there. */
  lemma LoneEntryOpens(d: Filter, slots: nat, er: Request)
    requires d.caid <= 0 && slots > 0 && er.caid != 0
    ensures !Passes([d], er) && Passes(DecodeColumns(EncodeColumns([d], slots), slots), er)
  {
    hide EncodeColumns, DecodeColumns, CaidMatches;
    ShiftedArrives([d], slots);
  }

  /** With more entries, if entries in different places never match one request, the meaning is kept
      exactly if every entry is alike with itself under the mask, provider and service of the entry
      before it. */
  lemma ShiftKeepsMeaningIff(tab: seq<Filter>, slots: nat)
    requires FirstWithout(tab) && |tab| <= slots && Apart(tab[1..], Shifted(tab))
    ensures SameMeaning(tab, DecodeColumns(EncodeColumns(tab, slots), slots))
       <==> |tab| > 1 && forall j :: 1 <= j < |tab| ==> Alike(tab[j], Filter(tab[j].caid, tab[j - 1].cmask, tab[j - 1].prid, tab[j - 1].srvid))
  {
    hide EncodeColumns, DecodeColumns, Matches, Alike, Apart;
    var x, y := tab[1..], Shifted(tab);
    ShiftedArrives(tab, slots);
    if |tab| == 1 {
      assert tab == [tab[0]];
      LoneEntryOpens(tab[0], slots, Request(1, 0, 0));
    } else {
      FirstIsIdle(tab);
      PlacewiseIff(x, y);
      forall i | 0 <= i < |x|
        ensures Alike(tab[i + 1], Filter(tab[i + 1].caid, tab[i].cmask, tab[i].prid, tab[i].srvid)) <==> SameMatches(x[i], y[i])
      {
        AlikeIff(x[i], y[i]);
      }
      if forall i :: 0 <= i < |x| ==> SameMatches(x[i], y[i]) {
        forall j | 1 <= j < |tab|
          ensures Alike(tab[j], Filter(tab[j].caid, tab[j - 1].cmask, tab[j - 1].prid, tab[j - 1].srvid))
        {
          assert SameMatches(x[j - 1], y[j - 1]);
        }
      }
    }
  }

  /** An entry without caid lets nothing through. */
  lemma FirstIsIdle(tab: seq<Filter>)
    requires |tab| > 1 && tab[0].caid <= 0
    ensures forall er :: Passes(tab, er) == Passes(tab[1..], er)
  {
    hide CaidMatches;
    forall er
      ensures Passes(tab, er) == Passes(tab[1..], er)
    {
      assert !Matches(tab[0], er);
      assert forall i :: 0 < i < |tab| ==> tab[1..][i - 1] == tab[i];
    }
  }

  /** Of two entries the one with a caid is alone in its place. */
  lemma TwoAreApart(tab: seq<Filter>)
    requires |tab| == 2
    ensures Apart(tab[1..], Shifted(tab))
  {
  }

  /** A table longer than the slots is cut; if no request is matched by two entries, the meaning is
      kept exactly if the entries cut off let nothing through. */
  lemma LongTableIff(tab: seq<Filter>, slots: nat)
    requires AllPositive(tab) && slots > 0 && Disjoint(tab)
    ensures SameMeaning(DecodeColumns(EncodeColumns(tab, slots), slots), tab) <==> forall j :: slots <= j < |tab| ==> !Able(tab[j])
  {
    hide EncodeColumns, DecodeColumns, Matches, Able, Own, Disjoint;
    ColumnsBack(tab, slots);
    var r := DecodeColumns(EncodeColumns(tab, slots), slots);
    if j: nat :| slots <= j < |tab| && Able(tab[j]) {
      OwnMatches(tab[j]);
      forall i | 0 <= i < |r|
        ensures !Matches(r[i], Own(tab[j]))
      {
        OneMatches(tab, j, i, Own(tab[j]));
      }
      assert Passes(tab, Own(tab[j])) && !Passes(r, Own(tab[j]));
    } else {
      forall er | InWidth(er)
        ensures Passes(r, er) == Passes(tab, er)
      {
        if i :| 0 <= i < |tab| && Matches(tab[i], er) {
          OnlyAbleMatches(tab[i], er);
          assert r[i] == tab[i];
        }
        assert forall i :: 0 <= i < |r| ==> r[i] == tab[i];
      }
    }
  }

  /** A table of two entries that loses its meaning: a request is refused there that passes here. */
  lemma DroppedCaidShifts()
    ensures
      var tab := [Filter(-1, -1, 5, -1), Filter(0x500, -1, 6, -1)];
      var er := Request(0x500, 6, 1);
      DecodeColumns(EncodeColumns(tab, 15), 15) != tab && Passes(tab, er) && !Passes(DecodeColumns(EncodeColumns(tab, 15), 15), er)
  {
    hide EncodeColumns, DecodeColumns;
    var tab := [Filter(-1, -1, 5, -1), Filter(0x500, -1, 6, -1)];
    assert Matches(tab[1], Request(0x500, 6, 1));
    assert tab[1..] == [Filter(0x500, -1, 6, -1)];
    ShiftedArrives(tab, 15);
    assert Shifted(tab)[0] == Filter(0x500, -1, 5, -1);
  }

  // ----- the compact form -----

  function Low(x: int32, n: nat): nat
    requires n > 0
  {
    x % n
  }

  /** One entry in nine bytes; a zero caid is left out, the rest moves up. */
  function EncodeEntry(d: Filter): (s: seq<byte>)
    ensures |s| <= 9 && (d.caid != 0 ==> |s| == 9)
  {
    (if d.caid != 0 then Be2(Low(d.caid, 0x10000)) else [])
    + Be2(Low(d.cmask, 0x10000)) + Be3(Low(d.prid, 0x1000000)) + Be2(Low(d.srvid, 0x10000))
  }

  function EncodeEntries(tab: seq<Filter>): (s: seq<byte>)
    ensures |s| <= 9 * |tab|
    decreases |tab|
  {
    if tab == [] then [] else EncodeEntry(tab[0]) + EncodeEntries(tab[1..])
  }

  /** Count byte and entries: 1 + 9 * |tab| bytes of a cleared buffer. */
  function EncodeCompact(tab: seq<Filter>): (s: seq<byte>)
    ensures |s| == 1 + 9 * |tab|
  {
    var count: byte, entries := |tab| % 256, EncodeEntries(tab);
    [count] + entries + Zeros(9 * |tab| - |entries|)
  }

  function AllOnesIsAny(n: nat, ones: nat): int32
    requires n <= ones < 0x80000000
  {
    if n == ones then -1 else n
  }

  function DecodeEntry(s: seq<byte>): Filter
    requires |s| == 9
  {
    NineBytes(s);
    Filter(AllOnesIsAny(FromBe(s[..2]), 0xFFFF), AllOnesIsAny(FromBe(s[2..4]), 0xFFFF),
           AllOnesIsAny(FromBe(s[4..7]), 0xFFFFFF), AllOnesIsAny(FromBe(s[7..9]), 0xFFFF))
  }

  lemma NineBytes(s: seq<byte>)
    requires |s| == 9
    ensures FromBe(s[..2]) <= 0xFFFF && FromBe(s[2..4]) <= 0xFFFF && FromBe(s[4..7]) <= 0xFFFFFF && FromBe(s[7..9]) <= 0xFFFF
  {
    hide FromBe;
    FromBeBound(s[..2]);
    FromBeBound(s[2..4]);
    FromBeBound(s[4..7]);
    FromBeBound(s[7..9]);
    SmallPowers();
  }

  lemma SmallPowers()
    ensures Pow2(16) == 0x10000 && Pow2(24) == 0x1000000
  {
    assert Pow2(8) == 256;
    assert Pow2(16) == 0x10000;
  }

  lemma {:induction false} FromBeBound(s: seq<byte>)
    ensures FromBe(s) < Pow2(8 * |s|)
    decreases |s|
  {
    if s != [] {
      FromBeBound(s[..|s| - 1]);
      Pow2Byte(8 * (|s| - 1));
    }
  }

  lemma Pow2Byte(n: nat)
    ensures Pow2(n + 8) == 256 * Pow2(n)
  {
    assert Pow2(n + 2) == 2 * Pow2(n + 1) == 4 * Pow2(n);
    assert Pow2(n + 4) == 2 * Pow2(n + 3) == 4 * Pow2(n + 2);
    assert Pow2(n + 6) == 2 * Pow2(n + 5) == 4 * Pow2(n + 4);
    assert Pow2(n + 8) == 2 * Pow2(n + 7) == 4 * Pow2(n + 6);
  }

  function DecodeEntries(s: seq<byte>, n: nat): seq<Filter>
    requires |s| == 9 * n
  {
    if n == 0 then []
    else
      var d := DecodeEntry(s[..9]);
      (if d.caid > 0 then [d] else []) + DecodeEntries(s[9..], n - 1)
  }

  /** The receiver's table. */
  function DecodeCompact(b: seq<byte>): seq<Filter>
    requires |b| >= 1 && |b| >= 1 + 9 * (b[0] as int)
  {
    DecodeEntries(b[1..1 + 9 * (b[0] as int)], b[0])
  }

  /** What fits the fields; the caid is set. */
  predicate Fits(d: Filter) {
    0 < d.caid <= 0xFFFF && -1 <= d.cmask <= 0xFFFF && -1 <= d.prid <= 0xFFFFFF && -1 <= d.srvid <= 0xFFFF
  }

  /** No field but the mask uses the value that stands for "any". */
  predicate Plain(d: Filter) { d.caid != 0xFFFF && d.prid != 0xFFFFFF && d.srvid != 0xFFFF }

  /** What becomes of an entry that fits. */
  function Arrived(d: Filter): Filter
    requires Fits(d)
  {
    Filter(if d.caid == 0xFFFF then -1 else d.caid, if d.cmask == 0xFFFF then -1 else d.cmask,
           if d.prid == 0xFFFFFF then -1 else d.prid, if d.srvid == 0xFFFF then -1 else d.srvid)
  }

  lemma AnyBack(x: int32, ones: nat)
    requires (ones == 0xFFFF || ones == 0xFFFFFF) && -1 <= x <= ones
    ensures Low(x, ones + 1) <= ones && AllOnesIsAny(Low(x, ones + 1), ones) == if x == ones then -1 else x
  {
  }

  lemma EntryBack(d: Filter)
    requires Fits(d)
    ensures |EncodeEntry(d)| == 9 && DecodeEntry(EncodeEntry(d)) == Arrived(d)
  {
    hide Be2, Be3, FromBe, Low, AllOnesIsAny;
    var s := EncodeEntry(d);
    var c, m, p, v := Low(d.caid, 0x10000), Low(d.cmask, 0x10000), Low(d.prid, 0x1000000), Low(d.srvid, 0x10000);
    AnyBack(d.caid, 0xFFFF);
    AnyBack(d.cmask, 0xFFFF);
    AnyBack(d.prid, 0xFFFFFF);
    AnyBack(d.srvid, 0xFFFF);
    FromBe2(c);
    FromBe2(m);
    FromBe3(p);
    FromBe2(v);
    assert s[..2] == Be2(c) && s[2..4] == Be2(m) && s[4..7] == Be3(p) && s[7..9] == Be2(v);
  }

  predicate AllFit(tab: seq<Filter>) { forall i :: 0 <= i < |tab| ==> Fits(tab[i]) }

  predicate AllPlain(tab: seq<Filter>) { forall i :: 0 <= i < |tab| ==> Plain(tab[i]) }

  function ArrivedTable(tab: seq<Filter>): (r: seq<Filter>)
    requires AllFit(tab)
    decreases |tab|
  {
    if tab == [] then [] else (if tab[0].caid != 0xFFFF then [Arrived(tab[0])] else []) + ArrivedTable(tab[1..])
  }

  lemma {:induction false} EntriesBack(tab: seq<Filter>)
    requires AllFit(tab)
    ensures |EncodeEntries(tab)| == 9 * |tab| && DecodeEntries(EncodeEntries(tab), |tab|) == ArrivedTable(tab)
    decreases |tab|
  {
    hide EncodeEntry, DecodeEntry;
    if tab != [] {
      EntryBack(tab[0]);
      EntriesBack(tab[1..]);
      var s := EncodeEntries(tab);
      assert s[..9] == EncodeEntry(tab[0]) && s[9..] == EncodeEntries(tab[1..]);
    }
  }

  /** The table that arrives in the compact form. */
  lemma {:induction false} CompactBack(tab: seq<Filter>)
    requires AllFit(tab) && |tab| < 256
    ensures
      var b := EncodeCompact(tab);
      |b| == 1 + 9 * (b[0] as int) && DecodeCompact(b) == ArrivedTable(tab)
  {
    hide EncodeEntries, DecodeEntries, ArrivedTable;
    EntriesBack(tab);
    var b := EncodeCompact(tab);
    assert b[1..1 + 9 * |tab|] == EncodeEntries(tab);
  }

  /** An entry decides the same on arrival: the mask 0xFFFF becomes "no mask", but with all bits
      required it said no more than the caid itself. */
  lemma ArrivedMatches(d: Filter, er: Request)
    requires Fits(d) && Plain(d) && InWidth(er)
    ensures Matches(Arrived(d), er) == Matches(d, er)
  {
    hide And, ToInt32;
    And16(er.caid);
  }

  lemma {:induction false} ArrivedPasses(tab: seq<Filter>, er: Request)
    requires AllFit(tab) && AllPlain(tab) && InWidth(er)
    ensures |ArrivedTable(tab)| == |tab| && forall i :: 0 <= i < |tab| ==> Matches(ArrivedTable(tab)[i], er) == Matches(tab[i], er)
    decreases |tab|
  {
    hide Matches;
    if tab != [] {
      ArrivedMatches(tab[0], er);
      ArrivedPasses(tab[1..], er);
    }
  }

  /** Sending a table in the compact form preserves its meaning. */
  lemma {:induction false} CompactKeepsMeaning(tab: seq<Filter>, er: Request)
    requires AllFit(tab) && AllPlain(tab) && |tab| < 256 && InWidth(er)
    ensures Passes(DecodeCompact(EncodeCompact(tab)), er) == Passes(tab, er)
  {
    hide EncodeCompact, DecodeCompact, ArrivedTable, Matches;
    CompactBack(tab);
    ArrivedPasses(tab, er);
  }

  /** For a table whose entries fit the fields and do not overlap, the meaning is kept exactly if
      every entry is plain. */
  lemma {:induction false} CompactKeepsMeaningIff(tab: seq<Filter>)
    requires |tab| < 256 && Disjoint(tab)
    requires forall i :: 0 <= i < |tab| ==>
      0 < tab[i].caid <= 0xFFFF && -1 <= tab[i].cmask <= 0xFFFF && -1 <= tab[i].prid <= 0xFFFFFF && -1 <= tab[i].srvid <= 0xFFFF
    ensures SameMeaning(DecodeCompact(EncodeCompact(tab)), tab)
       <==> forall i :: 0 <= i < |tab| ==> tab[i].caid < 0xFFFF && tab[i].prid < 0xFFFFFF && tab[i].srvid < 0xFFFF
  {
    hide EncodeCompact, DecodeCompact, ArrivedTable, Matches, Disjoint;
    CompactBack(tab);
    if AllPlain(tab) {
      forall er | InWidth(er)
        ensures Passes(DecodeCompact(EncodeCompact(tab)), er) == Passes(tab, er)
      {
        CompactKeepsMeaning(tab, er);
      }
    } else if k: nat :| k < |tab| && !Plain(tab[k]) && tab[k].caid != 0xFFFF {
      WidenedTells(tab, k);
    } else {
      var k: nat :| k < |tab| && !Plain(tab[k]);
      DroppedTells(tab, k);
    }
  }

  /** A request that an entry which is not plain lets through only after it was sent: provider and
      service are beyond all entries where they became "any". */
  function Telling(d: Filter, srvid: nat): Request
    requires Fits(d)
  {
    Request(d.caid, if d.prid == 0xFFFFFF then 0x1000000 else if d.prid < 0 then 0 else d.prid,
            if d.srvid == 0xFFFF then srvid else if d.srvid < 0 then 0 else d.srvid)
  }

  ghost predicate Used(tab: seq<Filter>, srvid: nat) { exists i :: 0 <= i < |tab| && tab[i].srvid == srvid }

  /** It takes as many entries to use the services below a bound. */
  lemma {:induction false} AllUsed(tab: seq<Filter>, n: nat)
    requires forall s: nat :: s < n ==> Used(tab, s)
    ensures n <= |tab|
    decreases n
  {
    if n > 0 {
      assert Used(tab, n - 1);
      var i :| 0 <= i < |tab| && tab[i].srvid == n - 1;
      var rest := tab[..i] + tab[i + 1..];
      forall s: nat | s < n - 1
        ensures Used(rest, s)
      {
        assert Used(tab, s);
        var j :| 0 <= j < |tab| && tab[j].srvid == s;
        assert rest[if j < i then j else j - 1] == tab[j];
      }
      AllUsed(rest, n - 1);
    }
  }

  /** Whoever matches the telling request matches the entry's own. */
  lemma TellingIsApart(d: Filter, e: Filter, srvid: nat)
    requires Fits(d) && Fits(e) && !Plain(d) && d.caid != 0xFFFF && srvid < 256 && e.srvid != srvid
    ensures Matches(e, Telling(d, srvid)) ==> Matches(e, Own(d))
    ensures !Matches(d, Telling(d, srvid)) && InWidth(Telling(d, srvid)) && Matches(Arrived(d), Telling(d, srvid))
    ensures Telling(d, srvid).caid != 0
  {
    hide And;
  }

  lemma {:induction false} ArrivedHere(tab: seq<Filter>, k: nat)
    requires AllFit(tab) && k < |tab| && tab[k].caid != 0xFFFF
    ensures Arrived(tab[k]) in ArrivedTable(tab)
    decreases |tab|
  {
    if k > 0 {
      ArrivedHere(tab[1..], k - 1);
    }
  }

  /** The entry that arrived in place i. */
  lemma {:induction false} ArrivedFrom(tab: seq<Filter>, i: nat) returns (k: nat)
    requires AllFit(tab) && i < |ArrivedTable(tab)|
    ensures k < |tab| && tab[k].caid != 0xFFFF && ArrivedTable(tab)[i] == Arrived(tab[k])
    decreases |tab|
  {
    var n := if tab[0].caid != 0xFFFF then 1 else 0;
    if i < n {
      k := 0;
    } else {
      k := ArrivedFrom(tab[1..], i - n);
      k := k + 1;
    }
  }

  /** An entry that became wider lets something through that no entry let through. */
  lemma WidenedTells(tab: seq<Filter>, k: nat)
    requires AllFit(tab) && |tab| < 256 && Disjoint(tab) && k < |tab| && !Plain(tab[k]) && tab[k].caid != 0xFFFF
    ensures !SameMeaning(ArrivedTable(tab), tab)
  {
    hide Matches, ArrivedTable, Arrived, Telling, Own, Disjoint;
    if forall s: nat :: s < 256 ==> Used(tab, s) {
      AllUsed(tab, 256);
    }
    var srvid: nat :| srvid < 256 && !Used(tab, srvid);
    var er := Telling(tab[k], srvid);
    OwnMatches(tab[k]);
    ArrivedHere(tab, k);
    forall j | 0 <= j < |tab|
      ensures !Matches(tab[j], er)
    {
      TellingIsApart(tab[k], tab[j], srvid);
      if j != k {
        OneMatches(tab, k, j, Own(tab[k]));
      }
    }
    TellingIsApart(tab[k], tab[k], srvid);
    assert Passes(ArrivedTable(tab), er) && !Passes(tab, er);
  }

  /** If none became wider, what a dropped entry let through is refused now, or, if all were
      dropped, everything passes. */
  lemma DroppedTells(tab: seq<Filter>, k: nat)
    requires AllFit(tab) && Disjoint(tab) && k < |tab| && tab[k].caid == 0xFFFF
    requires forall j :: 0 <= j < |tab| && !Plain(tab[j]) ==> tab[j].caid == 0xFFFF
    ensures !SameMeaning(ArrivedTable(tab), tab)
  {
    hide Matches, ArrivedTable, Arrived, Own, Disjoint;
    if ArrivedTable(tab) == [] {
      var er := Request(1, 0, 0);
      forall j | 0 <= j < |tab|
        ensures !Matches(tab[j], er)
      {
        if tab[j].caid != 0xFFFF {
          ArrivedHere(tab, j);
        }
        OnesDoNotMatch(tab[j]);
      }
      assert Passes([], er) && !Passes(tab, er);
    } else {
      var er := Own(tab[k]);
      OwnMatches(tab[k]);
      forall i | 0 <= i < |ArrivedTable(tab)|
        ensures !Matches(ArrivedTable(tab)[i], er)
      {
        var j := ArrivedFrom(tab, i);
        ArrivedMatches(tab[j], er);
        OneMatches(tab, k, j, er);
      }
      assert Passes(tab, er) && !Passes(ArrivedTable(tab), er);
    }
  }

  lemma OnesDoNotMatch(d: Filter)
    requires d.caid == 0xFFFF
    ensures !Matches(d, Request(1, 0, 0))
  {
    AndSmall(1, d.cmask);
  }

  lemma AndSmall(x: nat, mask: int32)
    requires x <= 1
    ensures mask >= 0 ==> And(x, mask) <= 1
  {
    if mask >= 0 && x == 1 {
      assert And(0, mask / 2) == 0;
    }
  }
}
