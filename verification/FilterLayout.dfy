/** What an entry of the filter table lets through, told field by field, and where things stand in the
    two forms in which the table is sent. */
module FilterLayout {
  import opened Bytes
  import opened CacheFilter

  // ----- what an entry lets through -----

  /** A positive caid lets through itself, all caids whose high byte it is, and, with a mask, every
      caid that is left with it when the other bits are cleared. */
  lemma CaidLets(d: Filter, caid: nat)
    requires d.caid >= 1 && caid < 0x10000
    ensures CaidMatches(d, caid) <==>
      || d.caid == caid || (256 * (d.caid as int) <= caid <= 256 * (d.caid as int) + 255)
      || (d.cmask >= 0 && And(caid, d.cmask) == d.caid)
  {
    hide And;
  }

  /** Provider and service count unless they are -1; below that an entry lets nothing through. */
  lemma FieldsLet(d: Filter, er: Request)
    requires InWidth(er) && d.caid >= 1 && CaidMatches(d, er.caid)
    ensures d.prid == -1 && d.srvid == -1 ==> Matches(d, er)
    ensures d.prid <= -2 || d.srvid <= -2 ==> !Matches(d, er)
    ensures d.prid >= 0 && d.srvid == -1 ==> (Matches(d, er) <==> d.prid as int == er.prid)
    ensures d.prid == -1 && d.srvid >= 0 ==> (Matches(d, er) <==> d.srvid as int == er.srvid)
    ensures d.prid >= 0 && d.srvid >= 0 ==> (Matches(d, er) <==> d.prid as int == er.prid && d.srvid as int == er.srvid)
  {
    hide CaidMatches;
  }

  /** An empty table and a request without caid pass; an entry without caid lets nothing through. */
  lemma PassesAnyway(tab: seq<Filter>, d: Filter, er: Request)
    ensures Passes([], er) && Passes(tab, er.(caid := 0))
    ensures d.caid <= 0 ==> !Matches(d, er)
    ensures er.caid != 0 ==> (Passes([d], er) <==> Matches(d, er))
  {
    hide CaidMatches;
    if Matches(d, er) {
      assert [d][0] == d;
    }
  }

  /** 0x05 lets 0x0500 to 0x05FF through; 0x0500 under the mask 0xFF00 does too. */
  lemma KnownCaids()
    ensures CaidMatches(Filter(5, -1, -1, -1), 0x500) && CaidMatches(Filter(5, -1, -1, -1), 0x5FF)
    ensures !CaidMatches(Filter(5, -1, -1, -1), 0x600) && !CaidMatches(Filter(0x500, -1, -1, -1), 0x501)
    ensures CaidMatches(Filter(4, 4, -1, -1), 6) && !CaidMatches(Filter(4, 6, -1, -1), 6)
  {
    assert And(6, 4) == 4 by {
      assert And(3, 2) == 2 by {
        assert And(1, 1) == 1 by {
          assert And(0, 0) == 0;
        }
      }
    }
    assert And(6, 6) == 6 by {
      assert And(3, 3) == 3 by {
        assert And(1, 1) == 1 by {
          assert And(0, 0) == 0;
        }
      }
    }
  }

  // ----- the columns -----

  function FieldOf(d: Filter, f: nat): int {
    if f == 0 then d.caid else if f == 1 then d.cmask else if f == 2 then d.prid else d.srvid
  }

  lemma Within(b: seq<byte>, lo: nat, part: seq<byte>, a: nat, n: nat)
    requires lo + |part| <= |b| && b[lo..lo + |part|] == part && a + n <= |part|
    ensures b[lo + a..lo + a + n] == part[a..a + n]
  {
    var y, z := part[a..a + n], b[lo + a..lo + a + n];
    forall i | 0 <= i < n
      ensures y[i] == z[i]
    {
      assert y[i] == part[a + i] == b[lo..lo + |part|][a + i] == b[lo + (a + i)];
    }
  }

  /** Behind the number of entries the caids, then the masks, then the providers, then the services, each
      in four bytes with the high one first and two's complement; unused slots are zero. */
  lemma ColumnBytes(tab: seq<Filter>, slots: nat, f: nat, j: nat)
    requires f < 4 && j < slots
    ensures
      var b, at := EncodeColumns(tab, slots), 2 + 4 * slots * f + 4 * j;
      && |b| == 2 + 16 * slots && FromBe(b[0..2]) == |tab| % 0x10000 && 0 <= at <= at + 4 <= |b|
      && FromBe(b[at..at + 4]) == if j < |tab| then FieldOf(tab[j], f) % 0x100000000 else 0
  {
    hide FromBe, Be4, Be2, Column;
    var b, at := EncodeColumns(tab, slots), 2 + 4 * slots * f + 4 * j;
    ColumnAt(tab, slots, f, j);
    SlotAt(tab, f, 0, j, slots);
    assert b[0..2] == Be2(|tab|);
    FromBe2(|tab|);
    if j < |tab| {
      FromBe4(ToUint32(Field(tab[j], f)));
    } else {
      assert Be4(0) == [0, 0, 0, 0] by { ZeroFour(); }
      FromBe4(0);
    }
  }

  lemma ZeroFour()
    ensures Be4(0) == [0, 0, 0, 0]
  {
  }

  // ----- the compact form -----

  /** An entry with a caid in nine bytes: caid, mask, provider and service, cut to two, two, three and two
      bytes. Without a caid its two bytes are left out. */
  lemma EntryBytes(d: Filter)
    ensures
      var s := EncodeEntry(d);
      && |s| == (if d.caid == 0 then 7 else 9)
      && (d.caid != 0 ==>
            FromBe(s[0..2]) == d.caid % 0x10000 && FromBe(s[2..4]) == d.cmask % 0x10000
            && FromBe(s[4..7]) == d.prid % 0x1000000 && FromBe(s[7..9]) == d.srvid % 0x10000)
      && (d.caid == 0 ==>
            FromBe(s[0..2]) == d.cmask % 0x10000 && FromBe(s[2..5]) == d.prid % 0x1000000 && FromBe(s[5..7]) == d.srvid % 0x10000)
  {
    hide FromBe, Be2, Be3;
    var s := EncodeEntry(d);
    var c, m, p, v := Low(d.caid, 0x10000), Low(d.cmask, 0x10000), Low(d.prid, 0x1000000), Low(d.srvid, 0x10000);
    FromBe2(c);
    FromBe2(m);
    FromBe3(p);
    FromBe2(v);
    if d.caid != 0 {
      assert s[0..2] == Be2(c) && s[2..4] == Be2(m) && s[4..7] == Be3(p) && s[7..9] == Be2(v);
    } else {
      assert s[0..2] == Be2(m) && s[2..5] == Be3(p) && s[5..7] == Be2(v);
    }
  }

  /** The number of entries, and entry k of a table of entries with caids at 1 + 9 * k. */
  lemma {:induction false} EntryAt(tab: seq<Filter>, k: nat)
    requires k < |tab| && forall i :: 0 <= i < |tab| ==> tab[i].caid != 0
    ensures |EncodeEntries(tab)| == 9 * |tab| && EncodeEntries(tab)[9 * k..9 * k + 9] == EncodeEntry(tab[k])
    decreases |tab|
  {
    hide EncodeEntry;
    var s, e := EncodeEntries(tab), EncodeEntry(tab[0]);
    var rest := EncodeEntries(tab[1..]);
    assert |e| == 9 by { EntryBytes(tab[0]); }
    assert s == e + rest;
    if |tab| == 1 {
      assert tab[1..] == [];
    } else {
      EntryAt(tab[1..], if k > 0 then k - 1 else 0);
      if k > 0 {
        assert s[9..9 + |rest|] == rest;
        Within(s, 9, rest, 9 * (k - 1), 9);
      }
    }
  }

  lemma CompactBytes(tab: seq<Filter>, k: nat)
    requires k < |tab| && forall i :: 0 <= i < |tab| ==> tab[i].caid != 0
    ensures
      var b := EncodeCompact(tab);
      |b| == 1 + 9 * |tab| && b[0] as int == |tab| % 256 && b[1 + 9 * k..1 + 9 * k + 9] == EncodeEntry(tab[k])
  {
    hide EncodeEntry, EncodeEntries;
    EntryAt(tab, k);
    var b := EncodeCompact(tab);
    assert b[1..1 + 9 * |tab|] == EncodeEntries(tab);
    Within(b, 1, EncodeEntries(tab), 9 * k, 9);
  }

  /** Nine bytes read back: all ones stand for any. */
  lemma EntryRead(s: seq<byte>)
    requires |s| == 9
    ensures
      var d := DecodeEntry(s);
      && d.caid as int == (if FromBe(s[0..2]) == 65535 then -1 else FromBe(s[0..2]))
      && d.cmask as int == (if FromBe(s[2..4]) == 65535 then -1 else FromBe(s[2..4]))
      && d.prid as int == (if FromBe(s[4..7]) == 16777215 then -1 else FromBe(s[4..7]))
      && d.srvid as int == (if FromBe(s[7..9]) == 65535 then -1 else FromBe(s[7..9]))
  {
    hide FromBe;
    assert s[..2] == s[0..2];
  }

  /** Of n entries of nine bytes exactly those with a positive caid are taken. */
  lemma {:induction false} TakenIff(s: seq<byte>, n: nat, d: Filter)
    requires |s| == 9 * n
    ensures d in DecodeEntries(s, n) <==> exists k :: 0 <= k < n && DecodeEntry(s[9 * k..9 * k + 9]) == d && d.caid >= 1
    decreases n
  {
    hide DecodeEntry;
    if n > 0 {
      var rest := s[9..];
      TakenIff(rest, n - 1, d);
      forall k | 0 <= k < n - 1
        ensures rest[9 * k..9 * k + 9] == s[9 * (k + 1)..9 * (k + 1) + 9]
      {
      }
      if k: nat :| k < n - 1 && DecodeEntry(rest[9 * k..9 * k + 9]) == d && d.caid >= 1 {
        assert DecodeEntry(s[9 * (k + 1)..9 * (k + 1) + 9]) == d;
      }
      if k :| 0 < k < n && DecodeEntry(s[9 * k..9 * k + 9]) == d && d.caid >= 1 {
        assert DecodeEntry(rest[9 * (k - 1)..9 * (k - 1) + 9]) == d;
      }
      assert s[..9] == s[9 * 0..9 * 0 + 9];
    }
  }
}
