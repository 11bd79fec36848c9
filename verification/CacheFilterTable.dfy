/** The filter table as an object (module-camd35-cacheex.c, module-cccam-cacheex.c): asked, written
    into messages column by column or entry by entry, and cleared and refilled from them. Each
    method is proved against the function of CacheFilter that it computes, and two methods run the
    whole exchange from one side to the other. */
module CacheFilterTable {
  import opened Bytes
  import opened NodeCodec
  import opened CacheFilter

  // ----- writing -----

  /** One column into a cleared buffer; the program has this loop four times. */
  method PutColumn(buf: array<byte>, start: nat, tab: seq<Filter>, f: nat, slots: nat) returns (i: nat)
    requires f < 4 && start + 4 * slots <= buf.Length && forall k :: start <= k < buf.Length ==> buf[k] == 0
    modifies buf
    ensures i == start + 4 * slots && buf[..i] == old(buf[..start]) + Column(tab, f, 0, slots)
    ensures forall k :: i <= k < buf.Length ==> buf[k] == 0
  {
    hide Column, Slot, Be4, ToUint32;
    ghost var before := buf[..start];
    i := start;
    var j := 0;
    assert before + Column(tab, f, 0, slots) == buf[..i] + Column(tab, f, 0, slots);
    while j < slots
      invariant 0 <= j <= slots && i == start + 4 * j
      invariant buf[..i] + Column(tab, f, j, slots) == before + Column(tab, f, 0, slots)
      invariant forall k :: i <= k < buf.Length ==> buf[k] == 0
    {
      ghost var sofar := buf[..i];
      ColumnStep(tab, f, j, slots);
      if |tab| > j {
        i := Append(buf, i, Be4(ToUint32(Field(tab[j], f))));
      } else {
        Skip(buf, i, 4);
        i := i + 4;
      }
      assert buf[..i] == sofar + Slot(tab, f, j) by { SlotIs(tab, f, j); }
      assert sofar + Slot(tab, f, j) + Column(tab, f, j + 1, slots) == sofar + (Slot(tab, f, j) + Column(tab, f, j + 1, slots));
      j := j + 1;
    }
    assert buf[..i] + [] == buf[..i];
  }

  lemma ColumnStep(tab: seq<Filter>, f: nat, j: nat, slots: nat)
    requires f < 4 && j < slots
    ensures Column(tab, f, j, slots) == Slot(tab, f, j) + Column(tab, f, j + 1, slots)
  {
  }

  lemma SlotIs(tab: seq<Filter>, f: nat, j: nat)
    requires f < 4
    ensures Slot(tab, f, j) == if j < |tab| then Be4(ToUint32(Field(tab[j], f))) else [0, 0, 0, 0]
  {
  }

  /** camd35_cacheex_send_push_filter (15 slots) and cc_cacheex_filter_out (30 slots), behind the
      header of the message. */
  method SendColumns(tab: seq<Filter>, slots: nat) returns (buf: array<byte>)
    ensures fresh(buf) && buf[..] == EncodeColumns(tab, slots)
  {
    hide Column, Slot, Be2;
    buf := new byte[2 + 16 * slots] (_ => 0);
    var i := Append(buf, 0, Be2(|tab|));
    i := PutColumn(buf, i, tab, 0, slots);
    i := PutColumn(buf, i, tab, 1, slots);
    i := PutColumn(buf, i, tab, 2, slots);
    i := PutColumn(buf, i, tab, 3, slots);
    assert buf[..i] == buf[..];
  }

  /** One entry of the compact form; fields that are zero stay as cleared. */
  method PutEntry(buf: array<byte>, start: nat, d: Filter) returns (i: nat)
    requires start + 9 <= buf.Length && forall k :: start <= k < buf.Length ==> buf[k] == 0
    modifies buf
    ensures i == start + |EncodeEntry(d)| && buf[..i] == old(buf[..start]) + EncodeEntry(d)
    ensures forall k :: i <= k < buf.Length ==> buf[k] == 0
  {
    hide Be2, Be3, Low;
    ZeroBytes();
    i := start;
    if d.caid != 0 {
      i := Append(buf, i, Be2(Low(d.caid, 0x10000)));
    }
    i := PutField(buf, i, d.cmask, Be2(Low(d.cmask, 0x10000)));
    i := PutField(buf, i, d.prid, Be3(Low(d.prid, 0x1000000)));
    i := PutField(buf, i, d.srvid, Be2(Low(d.srvid, 0x10000)));
  }

  method PutField(buf: array<byte>, start: nat, x: int32, s: seq<byte>) returns (i: nat)
    requires start + |s| <= buf.Length && forall k :: start <= k < buf.Length ==> buf[k] == 0
    requires |s| <= 4 && (x == 0 ==> s == [0, 0, 0, 0][..|s|])
    modifies buf
    ensures i == start + |s| && buf[..i] == old(buf[..start]) + s
    ensures forall k :: i <= k < buf.Length ==> buf[k] == 0
  {
    if x != 0 {
      i := Append(buf, start, s);
    } else {
      Skip(buf, start, |s|);
      i := start + |s|;
    }
  }

  lemma ZeroBytes()
    ensures Be2(Low(0, 0x10000)) == [0, 0, 0, 0][..2] && Be3(Low(0, 0x1000000)) == [0, 0, 0, 0][..3]
  {
  }

  lemma {:induction false} EntriesSnoc(tab: seq<Filter>, d: Filter)
    ensures EncodeEntries(tab + [d]) == EncodeEntries(tab) + EncodeEntry(d)
    decreases |tab|
  {
    hide EncodeEntry;
    if tab == [] {
      assert (tab + [d])[1..] == [];
      assert EncodeEntries([d]) == EncodeEntry(d) + EncodeEntries([]);
    } else {
      assert (tab + [d])[1..] == tab[1..] + [d];
      EntriesSnoc(tab[1..], d);
    }
  }

  /** The length of the payload buffer in the two builds, with large and with small ECMs. */
  const LARGE: nat := 1000
  const SMALL: nat := 572

  /** What becomes of a table: it is sent, refused as too long, or the code leaves the buffer. */
  datatype Sending = Sent(payload: array<byte>) | TooLong | LeavesBuffer

  /** camd35_cacheex_feature_trigger, case 4, behind the feature and length fields: count and
      entries in a cleared buffer. The size that is checked leaves out the four bytes of these
      fields. With the large buffer a table of 111 entries is neither refused nor does it fit: even
      if the loop writes nothing past the end, because entries without caid or with zero fields
      take less, the copy into the message reads the buffer and four bytes more. */
  method SendCompact(tab: seq<Filter>, room: nat) returns (r: Sending)
    requires room == LARGE || room == SMALL
    ensures r.TooLong? <==> |tab| > if room == LARGE then 111 else 63
    ensures r.LeavesBuffer? <==> room == LARGE && |tab| == 111
    ensures r.Sent? ==> fresh(r.payload) && r.payload[..] == EncodeCompact(tab)
  {
    hide EncodeEntries, EncodeEntry;
    var size := |tab| * 9 + 1;
    if size > room {
      return TooLong;
    }
    if 4 + size > room {
      return LeavesBuffer;
    }
    var payload := new byte[1 + 9 * |tab|] (_ => 0);
    var count: byte := |tab|;
    payload[0] := count;
    var i := 1;
    var j := 0;
    while j < |tab|
      invariant 0 <= j <= |tab| && i == 1 + |EncodeEntries(tab[..j])|
      invariant payload[..i] == [count] + EncodeEntries(tab[..j])
      invariant forall k :: i <= k < payload.Length ==> payload[k] == 0
    {
      i := PutEntry(payload, i, tab[j]);
      EntriesSnoc(tab[..j], tab[j]);
      assert tab[..j] + [tab[j]] == tab[..j + 1];
      j := j + 1;
    }
    assert tab[..j] == tab;
    assert payload[i..] == Zeros(payload.Length - i);
    assert payload[..] == payload[..i] + payload[i..];
    r := Sent(payload);
  }

  // ----- the table -----

  class Table {
    var data: seq<Filter>

    constructor ()
      ensures data == []
    {
      data := [];
    }

    /** chk_csp_ctab. */
    method Check(er: Request) returns (ok: bool)
      ensures ok == Passes(data, er)
    {
      hide CaidMatches, ToInt32;
      if er.caid == 0 || |data| == 0 {
        return true;
      }
      var i := 0;
      while i < |data|
        invariant 0 <= i <= |data|
        invariant forall k :: 0 <= k < i ==> !Matches(data[k], er)
      {
        var d := data[i];
        if d.caid > 0 {
          if CaidMatches(d, er.caid) {
            if (d.prid >= 0 && d.prid == ToInt32(er.prid)) || d.prid == -1 {
              if (d.srvid >= 0 && d.srvid == er.srvid) || d.srvid == -1 {
                assert Matches(data[i], er);
                return true;
              }
            }
          }
        }
        i := i + 1;
      }
      return false;
    }

    /** camd35_cacheex_push_filter and cc_cacheex_filter_in. */
    method ReceiveColumns(buf: seq<byte>, slots: nat)
      requires |buf| == 2 + 16 * slots
      modifies this
      ensures data == DecodeColumns(buf, slots)
    {
      hide Word, Caids;
      CollectCaids(buf, slots);
      var j := 0;
      while j < slots
        invariant 0 <= j <= slots && |data| == |Caids(buf, slots, slots)|
        invariant forall k :: 0 <= k < |data| ==>
          data[k] == Filter(Caids(buf, slots, slots)[k], if k < j then Word(buf, slots, 1, k) else 0, 0, 0)
      {
        if j < |data| {
          data := data[j := data[j].(cmask := Word(buf, slots, 1, j))];
        }
        j := j + 1;
      }
      j := 0;
      while j < slots
        invariant 0 <= j <= slots && |data| == |Caids(buf, slots, slots)|
        invariant forall k :: 0 <= k < |data| ==>
          data[k] == Filter(Caids(buf, slots, slots)[k], Word(buf, slots, 1, k), if k < j then Word(buf, slots, 2, k) else 0, 0)
      {
        if j < |data| {
          data := data[j := data[j].(prid := Word(buf, slots, 2, j))];
        }
        j := j + 1;
      }
      j := 0;
      while j < slots
        invariant 0 <= j <= slots && |data| == |Caids(buf, slots, slots)|
        invariant forall k :: 0 <= k < |data| ==>
          data[k] == Filter(Caids(buf, slots, slots)[k], Word(buf, slots, 1, k), Word(buf, slots, 2, k), if k < j then Word(buf, slots, 3, k) else 0)
      {
        if j < |data| {
          data := data[j := data[j].(srvid := Word(buf, slots, 3, j))];
        }
        j := j + 1;
      }
    }

    /** The first loop: entries for the positive caids. */
    method CollectCaids(buf: seq<byte>, slots: nat)
      requires |buf| == 2 + 16 * slots
      modifies this
      ensures |data| == |Caids(buf, slots, slots)|
      ensures forall k :: 0 <= k < |data| ==> data[k] == Filter(Caids(buf, slots, slots)[k], 0, 0, 0)
    {
      hide Word;
      data := [];
      var j := 0;
      while j < slots
        invariant 0 <= j <= slots && |data| == |Caids(buf, slots, j)|
        invariant forall k :: 0 <= k < |data| ==> data[k] == Filter(Caids(buf, slots, j)[k], 0, 0, 0)
      {
        var caid := Word(buf, slots, 0, j);
        if caid > 0 {
          data := data + [Filter(caid, 0, 0, 0)];
        }
        j := j + 1;
      }
    }

    /** camd35_cacheex_feature_trigger_in, case 4, from the count on. */
    method ReceiveCompact(buf: seq<byte>)
      requires |buf| >= 1 && |buf| >= 1 + 9 * (buf[0] as int)
      modifies this
      ensures data == DecodeCompact(buf)
    {
      hide DecodeEntries, DecodeEntry;
      var count := buf[0] as nat;
      data := [];
      var i, j := 1, 0;
      while j < count
        invariant 0 <= j <= count && i == 1 + 9 * j
        invariant DecodeCompact(buf) == data + DecodeEntries(buf[i..i + 9 * (count - j)], count - j)
      {
        var d := DecodeEntry(buf[i..i + 9]);
        DecodeEntriesStep(buf, i, count - j);
        if d.caid > 0 {
          data := data + [d];
        }
        i := i + 9;
        j := j + 1;
      }
      DecodeEntriesEnd(buf[i..i]);
    }
  }

  lemma DecodeEntriesStep(buf: seq<byte>, i: nat, n: nat)
    requires n > 0 && i + 9 * n <= |buf|
    ensures
      var d := DecodeEntry(buf[i..i + 9]);
      DecodeEntries(buf[i..i + 9 * n], n) == (if d.caid > 0 then [d] else []) + DecodeEntries(buf[i + 9..i + 9 + 9 * (n - 1)], n - 1)
  {
    hide DecodeEntry;
    SliceOfSlice(buf, i, i + 9 * n, 9);
  }

  lemma DecodeEntriesEnd(s: seq<byte>)
    requires s == []
    ensures DecodeEntries(s, 0) == []
  {
  }

  /** The whole exchange in columns: the receiver's check decides as the sender's table does. */
  method ExchangeColumns(tab: seq<Filter>, slots: nat, er: Request) returns (ok: bool)
    requires AllPositive(tab) && |tab| <= slots
    ensures ok == Passes(tab, er)
  {
    hide Passes, EncodeColumns, DecodeColumns;
    var buf := SendColumns(tab, slots);
    var t := new Table();
    t.ReceiveColumns(buf[..], slots);
    ok := t.Check(er);
    ColumnsKeepMeaning(tab, slots, er);
  }

  /** The whole exchange in the compact form, for a table that is sent. */
  method ExchangeCompact(tab: seq<Filter>, room: nat, er: Request) returns (ok: bool)
    requires AllFit(tab) && AllPlain(tab) && InWidth(er)
    requires (room == LARGE && |tab| <= 110) || (room == SMALL && |tab| <= 63)
    ensures ok == Passes(tab, er)
  {
    hide Passes, DecodeCompact;
    var sending := SendCompact(tab, room);
    var t := new Table();
    CompactBack(tab);
    t.ReceiveCompact(sending.payload[..]);
    ok := t.Check(er);
    CompactKeepsMeaning(tab, er);
  }
}
