/** The linked list of the control-word cycle checker (module-cw-cycle-check.c): entries are
    never changed in place but cloned and put on top, and the entry cloned from is marked. */
module CwCycleList {
  import opened Bytes
  import opened CwCycle

  /** What identifies an entry. */
  datatype Key = Key(caid: nat, provid: nat, sid: nat, chid: nat, ecmlen: int)

  function KeyOf(e: Entry): Key { Key(e.caid, e.provid, e.sid, e.chid, e.ecmlen) }

  function KeyOfRequest(r: Request): Key { Key(r.caid, r.prid, r.srvid, r.chid, r.ecmlen) }

  /** How the entries of a run can be told apart: by their ECM lengths too, or without them. */
  datatype Telling = ByLength | Alone

  function IdOf(e: Entry, t: Telling): Key { if t == ByLength then KeyOf(e) else KeyOf(e).(ecmlen := 0) }

  function IdOfRequest(r: Request, t: Telling): Key { if t == ByLength then KeyOfRequest(r) else KeyOfRequest(r).(ecmlen := 0) }

  /** The comparison of the search loop: an unknown ECM length on either side matches any. */
  predicate Matches(e: Entry, r: Request) {
    && e.caid == r.caid && e.provid == r.prid && e.sid == r.srvid && e.chid == r.chid
    && (r.ecmlen == 0 || e.ecmlen == 0 || e.ecmlen == r.ecmlen)
  }

  /** checkvalidCW, for a request that is not already marked as not found. */
  predicate HalfFilled(cw: Cw, half: int)
    requires half == 0 || half == 1
  {
    exists i :: 8 * half <= i < 8 * half + 8 && cw[i] != 0
  }

  predicate Checkable(r: Request, biss: bool, videoguard: bool) {
    && (NonZero(r.cw) || biss)
    && ((HalfFilled(r.cw, 0) && HalfFilled(r.cw, 1)) || !videoguard)
  }

  // ----- the list -----

  function FindFrom(list: seq<Entry>, r: Request, i: nat): (k: nat)
    requires i <= |list|
    ensures i <= k <= |list|
    ensures forall j :: i <= j < k ==> !Matches(list[j], r)
    ensures k < |list| ==> Matches(list[k], r)
    decreases |list| - i
  {
    if i == |list| || Matches(list[i], r) then i else FindFrom(list, r, i + 1)
  }

  /** The list and its separate counter. */
  datatype Store = Store(list: seq<Entry>, size: int)

  datatype Answer = Answer(ret: int, store: Store, outNext: int, outCycletime: int)

  /** One call of checkcwcycle_int on a checkable request. */
  function Answered(cfg: Config, s: Store, r: Request): Answer
    requires AllStages(s.list)
  {
    var k := FindFrom(s.list, r, 0);
    if k < |s.list| then
      var e := s.list[k];
      JudgeKeeps(cfg, e, r);
      var v := Judge(cfg, e, r);
      var size := if e.stale then s.size else s.size - 1;
      var marked := s.list[k := e.(stale := true)];
      if v.upd then Answer(v.ret, Store([Stored(v.entry, r)] + marked, size + 1), v.outNext, v.outCycletime)
      else Answer(v.ret, Store(marked, size), v.outNext, v.outCycletime)
    else if s.size <= cfg.maxCycleList then
      Answer(if r.cycletimeFr > 0 && r.nextFr < 2 then 8 else 6,
             Store([NewEntry(cfg, r)] + s.list, s.size + 1), -1, -1)
    else Answer(6, s, -1, -1)
  }

  /** Cleanup cuts the list at the first entry that is too old. */
  function FirstTooOld(list: seq<Entry>, now: int, keep: int, i: nat): (k: nat)
    requires i <= |list|
    ensures i <= k <= |list|
    ensures forall j :: i <= j < k ==> now - list[j].time <= keep
    ensures k < |list| ==> now - list[k].time > keep
    decreases |list| - i
  {
    if i == |list| || now - list[i].time > keep then i else FirstTooOld(list, now, keep, i + 1)
  }

  function Cleaned(s: Store, now: int, keep: int): Store {
    var k := FirstTooOld(s.list, now, keep, 0);
    Store(s.list[..k], s.size - CountLive(s.list[k..]))
  }

  // ----- invariants -----

  predicate AllStages(list: seq<Entry>) { forall i :: 0 <= i < |list| ==> StageInv(list[i]) }

  predicate AllRepeats(list: seq<Entry>) { forall i :: 0 <= i < |list| ==> RepeatInv(list[i]) }

  function CountLive(list: seq<Entry>): nat
    decreases |list|
  {
    if list == [] then 0 else CountLive(list[1..]) + if list[0].stale then 0 else 1
  }

  /** An entry that is not stale is the first of its key. */
  predicate OnlyFirstLive(list: seq<Entry>) {
    forall i, j :: 0 <= i < j < |list| && KeyOf(list[i]) == KeyOf(list[j]) ==> list[j].stale
  }

  predicate OnlyFirstLiveBy(list: seq<Entry>, t: Telling) {
    forall i, j :: 0 <= i < j < |list| && IdOf(list[i], t) == IdOf(list[j], t) ==> list[j].stale
  }

  predicate NewestFirst(list: seq<Entry>) {
    forall i, j :: 0 <= i < j < |list| ==> list[i].time >= list[j].time
  }

  /** What holds after every sequence of calls, whatever the requests. */
  predicate Counted(s: Store) { AllStages(s.list) && s.size == CountLive(s.list) }

  /** Requests that leave their length open next to requests of two different lengths. */
  ghost predicate Mixed(lens: iset<int>) {
    0 in lens && exists a, b :: a in lens && b in lens && a != 0 && b != 0 && a != b
  }

  ghost function TellingOf(lens: iset<int>): Telling { if 0 in lens then Alone else ByLength }

  /** What holds in addition while the requests' lengths are among `lens`, and these not mixed. */
  ghost predicate Told(list: seq<Entry>, lens: iset<int>) {
    && OnlyFirstLiveBy(list, TellingOf(lens))
    && forall i :: 0 <= i < |list| ==> list[i].ecmlen in lens
  }

  lemma ToldIsUnique(list: seq<Entry>, lens: iset<int>)
    requires Told(list, lens)
    ensures OnlyFirstLive(list)
  {
    assert forall i, j :: 0 <= i < j < |list| && KeyOf(list[i]) == KeyOf(list[j]) ==> IdOf(list[i], TellingOf(lens)) == IdOf(list[j], TellingOf(lens));
  }

  lemma {:induction false} CountAppend(x: seq<Entry>, y: seq<Entry>)
    ensures CountLive(x + y) == CountLive(x) + CountLive(y)
    decreases |x|
  {
    if x == [] {
      assert x + y == y;
    } else {
      assert (x + y)[1..] == x[1..] + y;
      CountAppend(x[1..], y);
    }
  }

  lemma {:induction false} CountMark(list: seq<Entry>, k: nat)
    requires k < |list|
    ensures CountLive(list[k := list[k].(stale := true)]) == CountLive(list) - if list[k].stale then 0 else 1
    decreases |list|
  {
    var marked := list[k := list[k].(stale := true)];
    if k == 0 {
      assert marked[1..] == list[1..];
    } else {
      assert marked[1..] == list[1..][k - 1 := list[k].(stale := true)];
      CountMark(list[1..], k - 1);
    }
  }

  /** The counter always is the number of entries that are not stale. */
  lemma AnswerKeepsCount(cfg: Config, s: Store, r: Request)
    requires Counted(s)
    ensures Counted(Answered(cfg, s, r).store)
    ensures AllRepeats(s.list) && !cfg.useCwcFromCe ==> AllRepeats(Answered(cfg, s, r).store.list)
  {
    hide Judge, StageInv, RepeatInv, NewEntry, Stored;
    var k := FindFrom(s.list, r, 0);
    if k < |s.list| {
      var e := s.list[k];
      JudgeKeeps(cfg, e, r);
      CountMark(s.list, k);
      MarkInv(e);
      var v := Judge(cfg, e, r);
      StoredInv(v.entry, r);
      assert 0 <= v.entry.histEntry <= 14;
      var marked := s.list[k := e.(stale := true)];
      assert ([Stored(v.entry, r)] + marked)[1..] == marked;
    } else {
      NewEntryInv(cfg, r);
      assert ([NewEntry(cfg, r)] + s.list)[1..] == s.list;
    }
  }

  lemma MarkInv(e: Entry)
    ensures StageInv(e.(stale := true)) == StageInv(e) && RepeatInv(e.(stale := true)) == RepeatInv(e)
  {
  }

  lemma StoredInv(e: Entry, r: Request)
    requires StageInv(e)
    ensures 0 <= e.histEntry <= 14
    ensures StageInv(Stored(e, r)) && RepeatInv(Stored(e, r)) == RepeatInv(e) && !Stored(e, r).stale
    ensures KeyOf(Stored(e, r)) == KeyOf(e).(ecmlen := r.ecmlen) && Stored(e, r).time == r.now
  {
  }

  lemma NewEntryInv(cfg: Config, r: Request)
    ensures StageInv(NewEntry(cfg, r)) && RepeatInv(NewEntry(cfg, r)) && !NewEntry(cfg, r).stale
    ensures KeyOf(NewEntry(cfg, r)) == KeyOfRequest(r) && NewEntry(cfg, r).time == r.now
    ensures Strip(NewEntry(cfg, r)) == NewEntry(cfg, r)
  {
  }

  lemma CleanKeepsCount(s: Store, now: int, keep: int)
    requires Counted(s)
    ensures Counted(Cleaned(s, now, keep))
  {
    var k := FirstTooOld(s.list, now, keep, 0);
    CountAppend(s.list[..k], s.list[k..]);
    assert s.list[..k] + s.list[k..] == s.list;
  }

  /** With lengths that are not mixed, the search looks for an identity. */
  lemma MatchesIsId(e: Entry, r: Request, lens: iset<int>)
    requires !Mixed(lens) && e.ecmlen in lens && r.ecmlen in lens
    ensures Matches(e, r) <==> IdOf(e, TellingOf(lens)) == IdOfRequest(r, TellingOf(lens))
  {
  }

  lemma JudgeKeepsKey(cfg: Config, e: Entry, r: Request)
    requires StageInv(e)
    ensures KeyOf(Judge(cfg, e, r).entry) == KeyOf(e)
  {
    hide Learn, NonZero, SameBytes, FindSeen, SameEcm, HalfEqual, ExportedCycletime;
    if InWindow(e, r.now) {
      LearnKeepsKey(e.(nextcyclecw := 1 - e.nextcyclecw), r, 0);
    }
    LearnKeepsKey(Demote(cfg, e, r.now), r, 3);
    LearnKeepsKey(e, r, 6);
  }

  lemma LearnKeepsKey(e: Entry, r: Request, ret: int)
    ensures KeyOf(Learn(e, r, ret).entry) == KeyOf(e)
  {
    hide Memcmp, NonZero, Int16;
  }

  /** Marking the first entry of its identity, and putting one of that identity on top. */
  lemma TopKeepsUnique(list: seq<Entry>, k: nat, top: Entry, t: Telling)
    requires k < |list| && OnlyFirstLiveBy(list, t) && IdOf(top, t) == IdOf(list[k], t)
    requires forall j :: 0 <= j < k ==> IdOf(list[j], t) != IdOf(list[k], t)
    ensures
      var marked := list[k := list[k].(stale := true)];
      OnlyFirstLiveBy(marked, t) && OnlyFirstLiveBy([top] + marked, t)
  {
    var marked := list[k := list[k].(stale := true)];
    assert forall i :: 0 <= i < |list| ==> IdOf(marked[i], t) == IdOf(list[i], t);
    forall j | 0 <= j < |marked| && IdOf(top, t) == IdOf(marked[j], t)
      ensures marked[j].stale
    {
      assert j > k ==> IdOf(list[k], t) == IdOf(list[j], t);
    }
  }

  /** One call keeps at most one live entry for each identity. */
  lemma AnswerKeepsUnique(cfg: Config, s: Store, r: Request, lens: iset<int>)
    requires Counted(s) && Told(s.list, lens) && !Mixed(lens) && r.ecmlen in lens
    ensures Told(Answered(cfg, s, r).store.list, lens)
  {
    hide Judge, StageInv, NewEntry, Stored, Matches, OnlyFirstLiveBy;
    var t := TellingOf(lens);
    forall j | 0 <= j < |s.list|
      ensures Matches(s.list[j], r) <==> IdOf(s.list[j], t) == IdOfRequest(r, t)
    {
      MatchesIsId(s.list[j], r, lens);
    }
    var k := FindFrom(s.list, r, 0);
    if k < |s.list| {
      var e := s.list[k];
      JudgeKeeps(cfg, e, r);
      JudgeKeepsKey(cfg, e, r);
      StoredInv(Judge(cfg, e, r).entry, r);
      TopKeepsUnique(s.list, k, Stored(Judge(cfg, e, r).entry, r), t);
    } else {
      NewEntryInv(cfg, r);
      NewKeepsUnique(s.list, NewEntry(cfg, r), t);
    }
  }

  lemma NewKeepsUnique(list: seq<Entry>, top: Entry, t: Telling)
    requires OnlyFirstLiveBy(list, t) && forall i :: 0 <= i < |list| ==> IdOf(list[i], t) != IdOf(top, t)
    ensures OnlyFirstLiveBy([top] + list, t)
  {
  }

  predicate NoneAfter(list: seq<Entry>, now: int) { forall i :: 0 <= i < |list| ==> list[i].time <= now }

  /** One call at a time no entry is ahead of keeps the list ordered by age. */
  lemma AnswerKeepsOrder(cfg: Config, s: Store, r: Request)
    requires Counted(s) && NewestFirst(s.list) && NoneAfter(s.list, r.now)
    ensures NewestFirst(Answered(cfg, s, r).store.list) && NoneAfter(Answered(cfg, s, r).store.list, r.now)
  {
    hide Judge, StageInv, NewEntry, Stored, Matches;
    var k := FindFrom(s.list, r, 0);
    if k < |s.list| {
      JudgeKeeps(cfg, s.list[k], r);
      StoredInv(Judge(cfg, s.list[k], r).entry, r);
    } else {
      NewEntryInv(cfg, r);
    }
  }

  // ----- refinement of a map -----

  function Strip(e: Entry): Entry { e.(stale := false) }

  /** Each identity's latest stored entry. */
  function Latest(list: seq<Entry>, t: Telling): map<Key, Entry>
    decreases |list|
  {
    if list == [] then map[] else Latest(list[1..], t)[IdOf(list[0], t) := Strip(list[0])]
  }

  function LiveKeys(list: seq<Entry>, t: Telling): set<Key>
    decreases |list|
  {
    if list == [] then {} else LiveKeys(list[1..], t) + if list[0].stale then {} else {IdOf(list[0], t)}
  }

  lemma {:induction false} LatestIsFirst(list: seq<Entry>, key: Key, k: nat, t: Telling)
    requires k <= |list| && forall j :: 0 <= j < k ==> IdOf(list[j], t) != key
    requires k < |list| ==> IdOf(list[k], t) == key
    ensures key in Latest(list, t) <==> k < |list|
    ensures k < |list| ==> Latest(list, t)[key] == Strip(list[k])
    decreases |list|
  {
    if list != [] && k > 0 {
      LatestIsFirst(list[1..], key, k - 1, t);
    }
  }

  lemma {:induction false} MarkKeepsLatest(list: seq<Entry>, k: nat, t: Telling)
    requires k < |list|
    ensures Latest(list[k := list[k].(stale := true)], t) == Latest(list, t)
    decreases |list|
  {
    var marked := list[k := list[k].(stale := true)];
    if k == 0 {
      assert marked[1..] == list[1..];
    } else {
      assert marked[1..] == list[1..][k - 1 := list[k].(stale := true)];
      MarkKeepsLatest(list[1..], k - 1, t);
    }
  }

  lemma {:induction false} LiveKeysMember(list: seq<Entry>, key: Key, t: Telling)
    ensures key in LiveKeys(list, t) <==> exists i :: 0 <= i < |list| && IdOf(list[i], t) == key && !list[i].stale
    decreases |list|
  {
    if list != [] {
      LiveKeysMember(list[1..], key, t);
      if exists i :: 0 <= i < |list| && IdOf(list[i], t) == key && !list[i].stale {
        var i :| 0 <= i < |list| && IdOf(list[i], t) == key && !list[i].stale;
        assert i > 0 ==> list[1..][i - 1] == list[i];
      }
    }
  }

  /** With one live entry per identity, the counter is the number of live keys. */
  lemma {:induction false} CountIsLiveKeys(list: seq<Entry>, t: Telling)
    requires OnlyFirstLiveBy(list, t)
    ensures CountLive(list) == |LiveKeys(list, t)|
    decreases |list|
  {
    if list != [] {
      CountIsLiveKeys(list[1..], t);
      LiveKeysMember(list[1..], IdOf(list[0], t), t);
    }
  }

  /** The abstract checker: the latest entry of each key, and the keys counted as live. */
  datatype Table = Table(latest: map<Key, Entry>, live: set<Key>)

  function TableOf(s: Store, t: Telling): Table { Table(Latest(s.list, t), LiveKeys(s.list, t)) }

  predicate TableStages(t: Table) { forall k :: k in t.latest ==> StageInv(t.latest[k]) }

  /** One call on the table: look the key up, judge, store on success; the key stays live
      only if something was stored. */
  function TableAnswered(cfg: Config, b: Table, r: Request, t: Telling): (int, Table)
    requires TableStages(b)
  {
    var key := IdOfRequest(r, t);
    if key in b.latest then
      JudgeKeeps(cfg, b.latest[key], r);
      var v := Judge(cfg, b.latest[key], r);
      if v.upd then (v.ret, Table(b.latest[key := Stored(v.entry, r)], b.live + {key}))
      else (v.ret, Table(b.latest, b.live - {key}))
    else if |b.live| <= cfg.maxCycleList then
      (if r.cycletimeFr > 0 && r.nextFr < 2 then 8 else 6, Table(b.latest[key := NewEntry(cfg, r)], b.live + {key}))
    else (6, b)
  }

  lemma {:induction false} LatestMember(list: seq<Entry>, key: Key, t: Telling)
    ensures key in Latest(list, t) ==> exists i :: 0 <= i < |list| && IdOf(list[i], t) == key && Latest(list, t)[key] == Strip(list[i])
    decreases |list|
  {
    if list != [] && key != IdOf(list[0], t) && key in Latest(list, t) {
      LatestMember(list[1..], key, t);
      var i :| 0 <= i < |list[1..]| && IdOf(list[1..][i], t) == key && Latest(list[1..], t)[key] == Strip(list[1..][i]);
      assert list[i + 1] == list[1..][i];
    }
  }

  lemma LatestStages(list: seq<Entry>, t: Telling)
    requires AllStages(list)
    ensures forall k :: k in Latest(list, t) ==> StageInv(Latest(list, t)[k])
  {
    forall k | k in Latest(list, t)
      ensures StageInv(Latest(list, t)[k])
    {
      LatestMember(list, k, t);
    }
  }

  /** Judging does not look at the stale mark, and storing clears it. */
  lemma JudgeIgnoresStale(cfg: Config, e: Entry, r: Request)
    requires StageInv(e)
    ensures Judge(cfg, Strip(e), r) == Judge(cfg, e, r).(entry := Strip(Judge(cfg, e, r).entry))
  {
    hide Learn, NonZero, SameBytes, FindSeen, SameEcm, HalfEqual, ExportedCycletime;
    assert Strip(e) == e.(stale := false);
    if InWindow(e, r.now) {
      LearnIgnoresStale(e.(nextcyclecw := 1 - e.nextcyclecw), r, 0);
    }
    LearnIgnoresStale(Demote(cfg, e, r.now), r, 3);
    LearnIgnoresStale(e, r, 6);
    ExportIgnoresStale(e);
  }

  lemma ExportIgnoresStale(e: Entry)
    ensures ExportedCycletime(e) == ExportedCycletime(Strip(e))
  {
  }

  lemma LearnIgnoresStale(e: Entry, r: Request, ret: int)
    ensures Learn(Strip(e), r, ret) == Learn(e, r, ret).(entry := Strip(Learn(e, r, ret).entry))
  {
    hide Memcmp, NonZero, Int16;
    assert Advance(Strip(e), r) == Strip(Advance(e, r));
  }

  lemma MarkLive(list: seq<Entry>, k: nat, t: Telling)
    requires k < |list| && OnlyFirstLiveBy(list, t)
    requires forall j :: 0 <= j < k ==> IdOf(list[j], t) != IdOf(list[k], t)
    ensures LiveKeys(list[k := list[k].(stale := true)], t) == LiveKeys(list, t) - {IdOf(list[k], t)}
  {
    var marked := list[k := list[k].(stale := true)];
    forall key
      ensures key in LiveKeys(marked, t) <==> key in LiveKeys(list, t) && key != IdOf(list[k], t)
    {
      LiveKeysMember(marked, key, t);
      LiveKeysMember(list, key, t);
      if key in LiveKeys(list, t) && key != IdOf(list[k], t) {
        var i :| 0 <= i < |list| && IdOf(list[i], t) == key && !list[i].stale;
        assert marked[i] == list[i];
      }
      if key in LiveKeys(marked, t) {
        var i :| 0 <= i < |marked| && IdOf(marked[i], t) == key && !marked[i].stale;
        assert i != k && list[i] == marked[i];
      }
    }
  }

  /** A call on the list is a call on the map of each identity's latest entry: same answer, and the
      new list stands for the new map. */
  lemma ListRefinesMap(cfg: Config, s: Store, r: Request, lens: iset<int>)
    requires Counted(s) && Told(s.list, lens) && !Mixed(lens) && r.ecmlen in lens
    ensures TableStages(TableOf(s, TellingOf(lens)))
    ensures
      var a, t := Answered(cfg, s, r), TellingOf(lens);
      (a.ret, TableOf(a.store, t)) == TableAnswered(cfg, TableOf(s, t), r, t)
  {
    hide Judge, StageInv, NewEntry, Matches;
    var t := TellingOf(lens);
    LatestStages(s.list, t);
    var key := IdOfRequest(r, t);
    var k := FindFrom(s.list, r, 0);
    forall j | 0 <= j < |s.list|
      ensures Matches(s.list[j], r) <==> IdOf(s.list[j], t) == key
    {
      MatchesIsId(s.list[j], r, lens);
    }
    LatestIsFirst(s.list, key, k, t);
    if k < |s.list| {
      RefineHit(cfg, s, r, k, t);
    } else {
      CountIsLiveKeys(s.list, t);
      assert ([NewEntry(cfg, r)] + s.list)[1..] == s.list;
      NewEntryInv(cfg, r);
    }
  }

  lemma StoredStripped(e: Entry, f: Entry, r: Request)
    requires Strip(e) == Strip(f) && 0 <= e.histEntry <= 14
    ensures Stored(e, r) == Stored(f, r) == Strip(Stored(e, r))
  {
    assert e == f.(stale := e.stale);
  }

  lemma RefineHit(cfg: Config, s: Store, r: Request, k: nat, t: Telling)
    requires Counted(s) && OnlyFirstLiveBy(s.list, t)
    requires k < |s.list| && k == FindFrom(s.list, r, 0) && IdOf(s.list[k], t) == IdOfRequest(r, t)
    requires forall j :: 0 <= j < k ==> IdOf(s.list[j], t) != IdOfRequest(r, t)
    requires IdOfRequest(r, t) in Latest(s.list, t) && Latest(s.list, t)[IdOfRequest(r, t)] == Strip(s.list[k])
    requires TableStages(TableOf(s, t))
    ensures
      var a := Answered(cfg, s, r);
      (a.ret, TableOf(a.store, t)) == TableAnswered(cfg, TableOf(s, t), r, t)
  {
    hide Judge, NewEntry, Stored;
    var e := s.list[k];
    JudgeKeeps(cfg, e, r);
    JudgeKeeps(cfg, Strip(e), r);
    JudgeIgnoresStale(cfg, e, r);
    JudgeKeepsKey(cfg, e, r);
    MarkKeepsLatest(s.list, k, t);
    MarkLive(s.list, k, t);
    var marked := s.list[k := e.(stale := true)];
    var v := Judge(cfg, e, r);
    if v.upd {
      StoredStripped(v.entry, Judge(cfg, Strip(e), r).entry, r);
      StoredInv(v.entry, r);
      var out := [Stored(v.entry, r)] + marked;
      assert out[1..] == marked;
      assert LiveKeys(out, t) == LiveKeys(s.list, t) + {IdOfRequest(r, t)};
    }
  }

  /** With the newest entries first, cleanup keeps exactly the entries within the keep window,
      and the map loses exactly the keys whose latest entry is too old. */
  lemma CleanKeepsWindow(s: Store, now: int, keep: int, t: Telling)
    requires NewestFirst(s.list)
    ensures NewestFirst(Cleaned(s, now, keep).list)
    ensures forall i :: 0 <= i < |s.list| ==> (i < |Cleaned(s, now, keep).list| <==> now - s.list[i].time <= keep)
    ensures Cleaned(s, now, keep).list <= s.list
    ensures Latest(Cleaned(s, now, keep).list, t) == map k | k in Latest(s.list, t) && now - Latest(s.list, t)[k].time <= keep :: Latest(s.list, t)[k]
  {
    var n := FirstTooOld(s.list, now, keep, 0);
    forall i | n <= i < |s.list|
      ensures now - s.list[i].time > keep
    {
      assert i > n ==> s.list[n].time >= s.list[i].time;
    }
    LatestOfPrefix(s.list, now, keep, n, t);
  }

  lemma {:induction false} LatestOfPrefix(list: seq<Entry>, now: int, keep: int, n: nat, t: Telling)
    requires NewestFirst(list) && n <= |list|
    requires forall i :: 0 <= i < |list| ==> (i < n <==> now - list[i].time <= keep)
    ensures Latest(list[..n], t) == map k | k in Latest(list, t) && now - Latest(list, t)[k].time <= keep :: Latest(list, t)[k]
    decreases |list|
  {
    if n == 0 {
      forall k | k in Latest(list, t)
        ensures now - Latest(list, t)[k].time > keep
      {
        LatestMember(list, k, t);
      }
    } else {
      LatestOfPrefix(list[1..], now, keep, n - 1, t);
      assert list[..n][1..] == list[1..][..n - 1];
    }
  }

  // ----- runs -----

  datatype Event = Check(r: Request) | Cleanup(now: int)

  function Keep(cfg: Config): int { cfg.keepCycleTime * 60 + 30 }

  function Do(cfg: Config, s: Store, ev: Event): Store
    requires Counted(s)
  {
    match ev
    case Check(r) => Answered(cfg, s, r).store
    case Cleanup(now) => Cleaned(s, now, Keep(cfg))
  }

  lemma DoKeeps(cfg: Config, s: Store, ev: Event)
    requires Counted(s)
    ensures Counted(Do(cfg, s, ev))
  {
    match ev {
      case Check(r) => AnswerKeepsCount(cfg, s, r);
      case Cleanup(now) => CleanKeepsCount(s, now, Keep(cfg));
    }
  }

  function DoAll(cfg: Config, s: Store, evs: seq<Event>): (t: Store)
    requires Counted(s)
    ensures Counted(t)
    decreases |evs|
  {
    if evs == [] then s
    else
      DoKeeps(cfg, s, evs[0]);
      DoAll(cfg, Do(cfg, s, evs[0]), evs[1..])
  }

  const EMPTY: Store := Store([], 0)

  /** The lengths that the requests of a run carry. */
  ghost predicate LengthsIn(evs: seq<Event>, lens: iset<int>) {
    forall i :: 0 <= i < |evs| && evs[i].Check? ==> evs[i].r.ecmlen in lens
  }

  /** Every run with lengths that are not mixed: at most one entry of an identity is not stale, it
      is the first of that identity, and the counter counts the live identities. */
  lemma {:induction false} EveryRunUnique(cfg: Config, s: Store, evs: seq<Event>, lens: iset<int>)
    requires Counted(s) && Told(s.list, lens) && !Mixed(lens) && LengthsIn(evs, lens)
    ensures
      var out := DoAll(cfg, s, evs);
      && Told(out.list, lens) && OnlyFirstLive(out.list)
      && out.size == |LiveKeys(out.list, TellingOf(lens))|
    decreases |evs|
  {
    hide Answered, Cleaned, StageInv, Told, Mixed, TellingOf;
    if evs == [] {
      ToldIsUnique(s.list, lens);
      ToldCount(s.list, lens);
    } else {
      DoKeeps(cfg, s, evs[0]);
      match evs[0] {
        case Check(r) => AnswerKeepsUnique(cfg, s, r, lens);
        case Cleanup(now) => CleanKeepsTold(s, now, Keep(cfg), lens);
      }
      EveryRunUnique(cfg, Do(cfg, s, evs[0]), evs[1..], lens);
    }
  }

  lemma ToldCount(list: seq<Entry>, lens: iset<int>)
    requires Told(list, lens)
    ensures CountLive(list) == |LiveKeys(list, TellingOf(lens))|
  {
    CountIsLiveKeys(list, TellingOf(lens));
  }

  lemma CleanKeepsTold(s: Store, now: int, keep: int, lens: iset<int>)
    requires Told(s.list, lens)
    ensures Told(Cleaned(s, now, keep).list, lens)
  {
  }

  /** Keys stay unique in every run from the empty list. */
  ghost predicate AlwaysUnique(lens: iset<int>) {
    forall cfg: Config, evs: seq<Event> :: LengthsIn(evs, lens) ==> OnlyFirstLive(DoAll(cfg, EMPTY, evs).list)
  }

  /** Keys stay unique in every run exactly if the lengths are not mixed: not both open ones and
      two different known ones. */
  lemma UniqueIffNotMixed(lens: iset<int>)
    ensures AlwaysUnique(lens) <==> !Mixed(lens)
  {
    hide DoAll, OnlyFirstLive;
    if Mixed(lens) {
      var a, b :| a in lens && b in lens && a != 0 && b != 0 && a != b;
      MixedLengthsBreakKeys(a, b);
    } else {
      forall cfg: Config, evs: seq<Event> | LengthsIn(evs, lens)
        ensures OnlyFirstLive(DoAll(cfg, EMPTY, evs).list)
      {
        EveryRunUnique(cfg, EMPTY, evs, lens);
      }
    }
  }

  // ----- a run that breaks the keys -----

  const PLAIN: Config := Config(false, false, 0, false, 0, 10)

  const ONES: Cw := [1, 1, 1, 1, 1, 1, 1, 1, 1, 1, 1, 1, 1, 1, 1, 1]

  /** The same service asked for with some length at some time. */
  function Asked(len: int, now: int): Request {
    Request(0x500, 0, 1, 0, len, now, BLANK, 0, ONES, 0, 2, false, 0)
  }

  /** Two known lengths, an open one, and the first known one again. */
  function BreakingRun(a: int, b: int): seq<Event> {
    [Check(Asked(a, 0)), Check(Asked(b, 0)), Check(Asked(0, 1)), Check(Asked(a, 2))]
  }

  /** A young entry is stored again, and is young still. */
  lemma YoungIsStored(e: Entry, r: Request)
    requires StageInv(e) && e.stage < 2 && r.now > e.locktime && r.fallbackSeconds == 0
    ensures
      var v := Judge(PLAIN, e, r);
      v.upd && v.entry.stage <= e.stage + 1 && KeyOf(v.entry) == KeyOf(e) && v.entry.locktime == r.now
  {
    hide LearnedNext, Steady;
    JudgeKeepsKey(PLAIN, e, r);
  }

  /** The first entry of the list matches and is stored again on top. */
  lemma FirstAnswers(s: Store, r: Request)
    requires Counted(s) && s.list != [] && Matches(s.list[0], r)
    requires s.list[0].stage < 2 && r.now > s.list[0].locktime && r.fallbackSeconds == 0
    ensures
      var out := Answered(PLAIN, s, r).store.list;
      && out[1..] == s.list[0 := s.list[0].(stale := true)] && |out| == |s.list| + 1
      && KeyOf(out[0]) == KeyOf(s.list[0]).(ecmlen := r.ecmlen) && !out[0].stale
      && out[0].stage <= s.list[0].stage + 1 && out[0].locktime == r.now && out[0].ecmlen == r.ecmlen
  {
    hide Judge, Stored;
    assert FindFrom(s.list, r, 0) == 0;
    var e := s.list[0];
    YoungIsStored(e, r);
    JudgeKeeps(PLAIN, e, r);
    StoredInv(Judge(PLAIN, e, r).entry, r);
    StoredStage(Judge(PLAIN, e, r).entry, r);
  }

  lemma StoredStage(e: Entry, r: Request)
    requires 0 <= e.histEntry <= 14
    ensures Stored(e, r).stage == e.stage && Stored(e, r).locktime == e.locktime
  {
  }

  /** No entry of the list matches, and there is room. */
  lemma NewAnswers(s: Store, r: Request)
    requires Counted(s) && s.size <= 10 && forall i :: 0 <= i < |s.list| ==> !Matches(s.list[i], r)
    requires r.fallbackSeconds == 0 && (r.cycletimeFr == 0 || r.nextFr >= 2)
    ensures Answered(PLAIN, s, r).store == Store([NewEntry(PLAIN, r)] + s.list, s.size + 1)
    ensures NewEntry(PLAIN, r).stage == 0 && NewEntry(PLAIN, r).locktime == r.now
  {
  }

  /** Every request passes the first checks and the times are in order, and yet two live entries share the key of length a. */
  lemma MixedLengthsBreakKeys(a: int, b: int)
    requires a != 0 && b != 0 && a != b
    ensures forall i :: 0 <= i < 4 ==> Checkable(BreakingRun(a, b)[i].r, false, true)
    ensures Timely(BreakingRun(a, b), 0, 2) && LengthsIn(BreakingRun(a, b), iset{0, a, b})
    ensures !OnlyFirstLive(DoAll(PLAIN, EMPTY, BreakingRun(a, b)).list)
  {
    hide Answered, NewEntry;
    assert ONES[0] != 0 && ONES[8] != 0;
    var r1, r2, r3, r4 := Asked(a, 0), Asked(b, 0), Asked(0, 1), Asked(a, 2);
    var s1 := Answered(PLAIN, EMPTY, r1).store;
    NewAnswers(EMPTY, r1);
    NewEntryInv(PLAIN, r1);
    DoKeeps(PLAIN, EMPTY, Check(r1));
    var s2 := Answered(PLAIN, s1, r2).store;
    NewAnswers(s1, r2);
    NewEntryInv(PLAIN, r2);
    DoKeeps(PLAIN, s1, Check(r2));
    var s3 := Answered(PLAIN, s2, r3).store;
    FirstAnswers(s2, r3);
    DoKeeps(PLAIN, s2, Check(r3));
    assert s3.list[3 - 1] == s3.list[1..][1] == s2.list[1] == NewEntry(PLAIN, r1);
    var evs := BreakingRun(a, b);
    DoAllFour(EMPTY, s1, s2, s3, evs);
    LastStep(s3, r4, a);
  }

  lemma DoAllFour(s0: Store, s1: Store, s2: Store, s3: Store, evs: seq<Event>)
    requires |evs| == 4 && Counted(s0) && Counted(s1) && Counted(s2) && Counted(s3)
    requires Do(PLAIN, s0, evs[0]) == s1 && Do(PLAIN, s1, evs[1]) == s2 && Do(PLAIN, s2, evs[2]) == s3
    ensures DoAll(PLAIN, s0, evs) == Do(PLAIN, s3, evs[3])
  {
    hide Do;
    DoKeeps(PLAIN, s3, evs[3]);
    assert evs[1..][1..] == evs[2..] && evs[2..][1..] == evs[3..] && evs[3..][1..] == [];
    assert DoAll(PLAIN, s3, evs[3..]) == DoAll(PLAIN, Do(PLAIN, s3, evs[3]), []);
    assert DoAll(PLAIN, s2, evs[2..]) == DoAll(PLAIN, s3, evs[3..]);
    assert DoAll(PLAIN, s1, evs[1..]) == DoAll(PLAIN, s2, evs[2..]);
  }

  lemma LastStep(s: Store, r: Request, a: int)
    requires Counted(s) && |s.list| == 3 && r == Asked(a, 2)
    requires Matches(s.list[0], r) && s.list[0].stage < 2 && s.list[0].locktime < 2
    requires KeyOf(s.list[0]).(ecmlen := a) == KeyOf(s.list[2]) && !s.list[2].stale
    ensures !OnlyFirstLive(Answered(PLAIN, s, r).store.list)
  {
    hide Answered;
    FirstAnswers(s, r);
    var out := Answered(PLAIN, s, r).store.list;
    assert out[3] == out[1..][2];
    assert KeyOf(out[0]) == KeyOf(out[3]) && !out[3].stale;
  }

  // ----- order of time -----

  /** Requests in order of time, between two times. */
  predicate Timely(evs: seq<Event>, from: int, upto: int) {
    && (forall i :: 0 <= i < |evs| && evs[i].Check? ==> from <= evs[i].r.now <= upto)
    && (forall i, j :: 0 <= i < j < |evs| && evs[i].Check? && evs[j].Check? ==> evs[i].r.now <= evs[j].r.now)
  }

  predicate AllCycles(list: seq<Entry>) { forall i :: 0 <= i < |list| ==> CycleInv(list[i]) }

  lemma AnswerKeepsCycles(cfg: Config, s: Store, r: Request)
    requires Counted(s) && NoneAfter(s.list, r.now) && AllCycles(s.list)
    ensures AllCycles(Answered(cfg, s, r).store.list)
  {
    hide Judge, StageInv;
    var k := FindFrom(s.list, r, 0);
    if k < |s.list| {
      JudgeKeeps(cfg, s.list[k], r);
      JudgeKeepsCycle(cfg, s.list[k], r);
    }
  }

  /** Every run in order of time: the list is ordered by age, and no cycle time is negative. */
  lemma {:induction false} EveryRunOrdered(cfg: Config, s: Store, evs: seq<Event>, from: int, upto: int)
    requires Counted(s) && NewestFirst(s.list) && NoneAfter(s.list, from) && AllCycles(s.list)
    requires Timely(evs, from, upto) && from <= upto
    ensures
      var out := DoAll(cfg, s, evs).list;
      NewestFirst(out) && NoneAfter(out, upto) && AllCycles(out)
    decreases |evs|
  {
    hide Answered, Cleaned, StageInv;
    if evs != [] {
      DoKeeps(cfg, s, evs[0]);
      match evs[0] {
        case Check(r) =>
          AnswerKeepsOrder(cfg, s, r);
          AnswerKeepsCycles(cfg, s, r);
          EveryRunOrdered(cfg, Do(cfg, s, evs[0]), evs[1..], r.now, upto);
        case Cleanup(now) =>
          CleanKeepsWindow(s, now, Keep(cfg), ByLength);
          EveryRunOrdered(cfg, Do(cfg, s, evs[0]), evs[1..], from, upto);
      }
    }
  }

  /** In every run in order of time, the cycle time told to a request is below 128 and is the
      one learned, so it is not negative either unless nothing is told. */
  lemma {:induction false} EveryAnnouncement(cfg: Config, evs: seq<Event>, r: Request, from: int)
    requires Timely(evs, from, r.now) && from <= r.now
    ensures
      var a := Answered(cfg, DoAll(cfg, EMPTY, evs), r);
      && -1 <= a.outCycletime < 128
      && (a.outCycletime >= 0 ==> exists i :: 0 <= i < |DoAll(cfg, EMPTY, evs).list| && DoAll(cfg, EMPTY, evs).list[i].cycletime == a.outCycletime)
      && (a.outCycletime >= 0 ==> 0 <= a.outNext < 2)
  {
    hide Judge, StageInv, DoAll, CycleInv;
    EveryRunOrdered(cfg, EMPTY, evs, from, r.now);
    var s := DoAll(cfg, EMPTY, evs);
    var k := FindFrom(s.list, r, 0);
    if k < |s.list| {
      JudgeKeepsCycle(cfg, s.list[k], r);
    }
  }

  /** Every run, whatever the lengths and times of the requests: every entry satisfies the
      stage invariant and, without peers' cycle information, the stage 4 bound. */
  lemma {:induction false} EveryRunStages(cfg: Config, s: Store, evs: seq<Event>)
    requires Counted(s) && AllRepeats(s.list) && !cfg.useCwcFromCe
    ensures AllStages(DoAll(cfg, s, evs).list) && AllRepeats(DoAll(cfg, s, evs).list)
    decreases |evs|
  {
    hide Answered, StageInv, RepeatInv;
    if evs != [] {
      DoKeeps(cfg, s, evs[0]);
      if evs[0].Check? {
        AnswerKeepsCount(cfg, s, evs[0].r);
      }
      EveryRunStages(cfg, Do(cfg, s, evs[0]), evs[1..]);
    }
  }
}
