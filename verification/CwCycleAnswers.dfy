/** What the cycle checker answers, told in bytes and seconds: every verdict with the case in which
    it is given, and every stage with the step that leads to it. */
module CwCycleAnswers {
  import opened Bytes
  import opened CwCycle
  import opened CwCycleList

  // ----- words and times -----

  const ZEROS: Cw := [0, 0, 0, 0, 0, 0, 0, 0, 0, 0, 0, 0, 0, 0, 0, 0]

  /** Half h of the word stayed as it was. */
  predicate Stayed(x: Cw, y: Cw, h: int)
    requires 0 <= h <= 1
  {
    forall i :: 8 * h <= i < 8 * h + 8 ==> x[i] == y[i]
  }

  /** The places of half h that stayed as they were. */
  function Same(x: Cw, y: Cw, h: int): set<int>
    requires 0 <= h <= 1
  {
    set i | 8 * h <= i < 8 * h + 8 && x[i] == y[i]
  }

  /** Half h alone changed, in a word that is not zero. */
  predicate AloneChanged(x: Cw, y: Cw, h: int)
    requires 0 <= h <= 1
  {
    y != ZEROS && !Stayed(x, y, h) && Stayed(x, y, 1 - h)
  }

  /** A peer said how long the cycle is and which half is next, and is listened to. */
  predicate Told(cfg: Config, r: Request) { cfg.useCwcFromCe && 1 <= r.cycletimeFr && r.nextFr <= 1 }

  /** The word came before two cycles were over. */
  predicate InTime(e: Entry, now: int) {
    e.stage == 3 && now - e.time + e.dyncycletime + 2 <= 2 * e.cycletime
  }

  /** The difference to the cycle is at most a second, in a 16-bit variable. */
  predicate OnTime(e: Entry, now: int) { (now - e.time - e.cycletime + 1) % 0x10000 <= 2 }

  /** The same request: by digest or by hash, as far as they are known. */
  predicate SameRequest(r: Request, s: Seen) {
    (r.ecmd5 == s.md5 && r.ecmd5 != ZEROS) || (r.cspHash == s.cspHash && r.cspHash >= 1)
  }

  predicate Repeated(e: Entry, r: Request) { exists k :: 0 <= k < 15 && SameRequest(r, e.history[k]) }

  /** The half that was to stay did, and not too much of the other half. */
  predicate Continues(cfg: Config, e: Entry, cw: Cw)
    requires 0 <= e.nextcyclecw <= 1
  {
    Stayed(e.cw, cw, e.nextcyclecw) && (cfg.sensitive != 0 ==> |Same(e.cw, cw, 1 - e.nextcyclecw)| < cfg.sensitive)
  }

  // ----- the same in the terms of the checker -----

  lemma HalfIsStayed(x: Cw, y: Cw, h: int)
    requires 0 <= h <= 1
    ensures HalfEqual(x, y, h) <==> Stayed(x, y, h)
  {
    var lo := 8 * h;
    var a, b := x[lo..lo + 8], y[lo..lo + 8];
    assert HalfEqual(x, y, h) <==> a == b;
    if a == b {
      forall i | lo <= i < lo + 8
        ensures x[i] == y[i]
      {
        assert a[i - lo] == b[i - lo];
      }
    }
    if Stayed(x, y, h) {
      forall i | 0 <= i < 8
        ensures a[i] == b[i]
      {
        assert x[lo + i] == y[lo + i];
      }
    }
  }

  lemma {:induction false} SameBytesCount(x: Cw, y: Cw, eo: nat, n: nat)
    requires eo + n <= 16
    ensures SameBytes(x, y, eo, n) == |set i | eo <= i < eo + n && x[i] == y[i]|
  {
    if n > 0 {
      SameBytesCount(x, y, eo, n - 1);
      var rest := set i | eo <= i < eo + n - 1 && x[i] == y[i];
      var last := eo + n - 1;
      assert (set i | eo <= i < eo + n && x[i] == y[i]) == if x[last] == y[last] then rest + {last} else rest;
    }
  }

  lemma SameBytesAre(x: Cw, y: Cw, h: int)
    requires 0 <= h <= 1
    ensures SameBytes(x, y, 8 * h, 8) == |Same(x, y, h)|
  {
    SameBytesCount(x, y, 8 * h, 8);
    assert Same(x, y, h) == set i | 8 * h <= i < 8 * h + 8 && x[i] == y[i];
  }

  lemma ZeroWord(x: Cw)
    ensures NonZero(x) <==> x != ZEROS
  {
    if x != ZEROS {
      assert exists i :: 0 <= i < 16 && x[i] != ZEROS[i];
    }
  }

  lemma RequestIs(r: Request, s: Seen)
    ensures SameEcm(r, s) <==> SameRequest(r, s)
  {
    ZeroWord(r.ecmd5);
    ZeroWord(s.md5);
  }

  lemma OnTimeIs(e: Entry, now: int)
    ensures Steady(e, now) <==> OnTime(e, now)
  {
  }

  lemma LearnedIs(e: Entry, cw: Cw)
    requires e.nextcyclecw == 2
    ensures
      var next := LearnedNext(e, cw);
      && 0 <= next <= 2
      && (next == 0 <==> AloneChanged(e.cw, cw, 0))
      && (next == 1 <==> AloneChanged(e.cw, cw, 1))
  {
    hide NonZero, HalfEqual, Memcmp, LearnedNext, Stayed;
    ZeroWord(cw);
    HalfIsStayed(e.cw, cw, 0);
    HalfIsStayed(e.cw, cw, 1);
    LearnedIff(e, cw, 0);
    LearnedIff(e, cw, 1);
    LearnedRange(e, cw);
  }

  lemma ContinuesIs(cfg: Config, e: Entry, r: Request)
    requires 0 <= e.nextcyclecw <= 1
    ensures Continues(cfg, e, r.cw) <==> CycleOk(cfg, e, r) == e.nextcyclecw
    ensures !Continues(cfg, e, r.cw) <==> CycleOk(cfg, e, r) < 0
  {
    hide Stayed, Same, HalfEqual, SameBytes;
    HalfIsStayed(e.cw, r.cw, e.nextcyclecw);
    SameBytesAre(e.cw, r.cw, 1 - e.nextcyclecw);
  }

  // ----- the verdicts -----

  /** The word that is stored already: too late is old if old words are dropped, and otherwise it is
      the same word; nothing is stored. */
  predicate SameWord(v: Verdict, cfg: Config, waited: int, cycle: int) {
    v.ret == (if cfg.dropOld && waited >= cycle then 2 else 4) && !v.upd && v.outNext == -1 && v.outCycletime == -1
  }

  /** With a peer's word for the cycle the entry takes cycle time and half over and is ready to check. */
  lemma ToldAnswers(cfg: Config, e: Entry, r: Request)
    requires StageInv(e) && Told(cfg, r)
    ensures
      var v := Judge(cfg, e, r);
      && (e.cw == r.cw ==> SameWord(v, cfg, r.now - e.time + e.dyncycletime, r.cycletimeFr))
      && (e.cw != r.cw ==> v == Verdict(8, e.(stage := 3, cycletime := r.cycletimeFr, nextcyclecw := r.nextFr), true, -1, -1))
  {
  }

  /** In time, a word that continues the cycle is verdict 0: the halves change places and are
      announced, with the cycle time if it fits seven bits, except for one provider. */
  lemma ContinuedAnswers(cfg: Config, e: Entry, r: Request)
    requires StageInv(e) && !Told(cfg, r) && InTime(e, r.now) && e.cw != r.cw && Continues(cfg, e, r.cw)
    ensures
      var v := Judge(cfg, e, r);
      var late := r.now - e.time - e.cycletime;
      && v.ret == 0 && v.upd && v.outNext == 1 - e.nextcyclecw
      && v.outCycletime == (if e.cycletime <= 127 && (e.caid != 0x0100 || e.provid != 0x6A) then e.cycletime % 256 else -1)
      && v.entry == e.(nextcyclecw := 1 - e.nextcyclecw, dyncycletime := if late >= 1 then late else 0,
                       locktime := if r.now > e.locktime then 0 else e.locktime,
                       stage4Repeat := if r.now > e.locktime then 0 else e.stage4Repeat)
  {
    hide Memcmp, NonZero, SameBytes, FindSeen, SameEcm, HalfEqual, CycleOk, Continues;
    ContinuesIs(cfg, e, r);
  }

  /** In time, every other word is the same, repeated, a fallback's, or bad. */
  lemma RefusedAnswers(cfg: Config, e: Entry, r: Request)
    requires StageInv(e) && !Told(cfg, r) && InTime(e, r.now)
    ensures
      var v := Judge(cfg, e, r);
      && (e.cw == r.cw ==> SameWord(v, cfg, r.now - e.time + e.dyncycletime, e.cycletime))
      && (e.cw != r.cw && !Continues(cfg, e, r.cw) && Repeated(e, r) ==>
            (v.ret == 2 || (v.ret == 4 && !cfg.dropOld)) && v == Verdict(v.ret, e, false, -1, -1))
      && (e.cw != r.cw && !Continues(cfg, e, r.cw) && !Repeated(e, r) && cfg.allowBadFromFfb && r.posFallback ==>
            v == Verdict(5, e.(stage := 4, nextcyclecw := 2), true, -1, -1))
      && (e.cw != r.cw && !Continues(cfg, e, r.cw) && !Repeated(e, r) && !(cfg.allowBadFromFfb && r.posFallback) ==>
            v == Verdict(1, e, false, -1, -1))
  {
    hide Memcmp, NonZero, SameBytes, SameEcm, HalfEqual, CycleOk, Continues, SameRequest;
    ContinuesIs(cfg, e, r);
    forall k | 0 <= k < 15
      ensures SameEcm(r, e.history[k]) <==> SameRequest(r, e.history[k])
    {
      RequestIs(r, e.history[k]);
    }
  }

  /** A repeated request is the same word if the first place of the ring that holds it has that word
      and old words are not dropped. */
  lemma RepeatedAnswers(cfg: Config, e: Entry, r: Request, k: nat)
    requires StageInv(e) && !Told(cfg, r) && InTime(e, r.now) && e.cw != r.cw && !Continues(cfg, e, r.cw)
    requires k < 15 && SameRequest(r, e.history[k]) && forall j :: 0 <= j < k ==> !SameRequest(r, e.history[j])
    ensures Judge(cfg, e, r).ret == if !cfg.dropOld && e.history[k].cw == r.cw then 4 else 2
  {
    hide Memcmp, NonZero, SameBytes, SameEcm, HalfEqual, CycleOk, Continues, SameRequest;
    ContinuesIs(cfg, e, r);
    forall j | 0 <= j <= k
      ensures SameEcm(r, e.history[j]) <==> SameRequest(r, e.history[j])
    {
      RequestIs(r, e.history[j]);
    }
  }

  // ----- the stages -----

  /** The stage from which is learned: an entry whose time is over goes on with its cycle time for
      some minutes, and then starts from stage 2. */
  function From(cfg: Config, e: Entry, now: int): int {
    if e.stage != 3 then e.stage
    else if 1 <= cfg.keepCycleTime && now - e.time <= 60 * cfg.keepCycleTime - 1 then 4 else 2
  }

  /** The word it is compared with. */
  function Before(e: Entry): Cw { if e.stage == 3 then ZEROS else e.cw }

  /** Not in time, and locked after the last pass: nothing is learned. */
  lemma LockedAnswers(cfg: Config, e: Entry, r: Request)
    requires StageInv(e) && !Told(cfg, r) && !InTime(e, r.now) && r.now <= e.locktime
    ensures
      var v := Judge(cfg, e, r);
      v.ret == (if e.stage == 3 then 3 else 6) && !v.upd && v.outNext == -1 && v.outCycletime == -1
  {
  }

  /** Not in time and not locked: the stage after a learning pass, for each stage before. */
  lemma LearningAnswers(cfg: Config, e: Entry, r: Request)
    requires StageInv(e) && !Told(cfg, r) && !InTime(e, r.now) && r.now > e.locktime
    ensures
      var v := Judge(cfg, e, r);
      var b, f := From(cfg, e, r.now), v.entry;
      var learned := AloneChanged(Before(e), r.cw, 0) || AloneChanged(Before(e), r.cw, 1);
      && v.upd && v.outNext == -1 && v.outCycletime == -1
      && v.ret == (if e.stage == 3 then 3 else if e.stage == 4 then 7 else 6)
      && (b == 0 ==> f.stage == if OnTime(e, r.now) then 1 else 0)
      && (b == 1 ==> f.stage == if OnTime(e, r.now) then 2 else 0)
      && (b == 2 ==> f.stage == if OnTime(e, r.now) && e.cycletime >= 1 && learned then 3 else 1)
      && (b == 4 ==> f.stage == if learned then 3 else if e.stage4Repeat >= 13 then 1 else 4)
      && (f.stage == 3 ==> 0 <= f.nextcyclecw <= 1 && AloneChanged(Before(e), r.cw, f.nextcyclecw))
      && (f.stage != 3 ==> f.nextcyclecw == 2)
  {
    hide Memcmp, NonZero, SameBytes, FindSeen, SameEcm, HalfEqual, LearnedNext, Steady, OnTime, AloneChanged;
    var d := if e.stage == 3 then Demote(cfg, e, r.now) else e;
    OnTimeIs(e, r.now);
    OnTimeIs(d, r.now);
    LearnedIs(d, r.cw);
    LearnedIs(d.(cycletime := r.now - e.time), r.cw);
    Once(Before(e), r.cw);
    assert OnTime(d, r.now) == OnTime(e, r.now) by { SameTimes(d, e, r.now); }
  }

  /** Below stage 2 a learning pass goes one stage up exactly if the answer is at most a second off
      the cycle time. */
  lemma StageRisesIff(cfg: Config, e: Entry, r: Request)
    requires StageInv(e) && e.stage <= 1 && LearningPass(cfg, e, r)
    requires -0x8000 <= r.now - e.time - e.cycletime < 0x8000
    ensures Pass(cfg, e, r).stage == e.stage + 1 <==> -1 <= r.now - e.time - e.cycletime <= 1
  {
  }

  lemma SameTimes(d: Entry, e: Entry, now: int)
    requires d.time == e.time && d.cycletime == e.cycletime
    ensures OnTime(d, now) == OnTime(e, now)
  {
  }

  lemma Once(x: Cw, y: Cw)
    ensures !(AloneChanged(x, y, 0) && AloneChanged(x, y, 1))
  {
  }

  /** The times after a learning pass: the cycle time is what was waited, unless it was kept; ready to
      check there is no lock and the lateness is noted, and otherwise the entry is locked. */
  lemma LearningTimes(cfg: Config, e: Entry, r: Request)
    requires StageInv(e) && !Told(cfg, r) && !InTime(e, r.now) && r.now > e.locktime
    ensures
      var f := Judge(cfg, e, r).entry;
      var waited := r.now - e.time;
      && f.cycletime == (if f.stage == 4 || (f.stage == 3 && From(cfg, e, r.now) == 4) then e.cycletime else waited)
      && f.locktime == (if f.stage == 3 then 0 else r.now + r.fallbackSeconds)
      && f.stage4Repeat == (if f.stage == 3 then 0 else e.stage4Repeat + if From(cfg, e, r.now) == 4 then 1 else 0)
      && f.dyncycletime == (if f.stage != 3 then e.dyncycletime else if waited > f.cycletime then waited - f.cycletime else 0)
      && f.time == e.time && f.history == e.history && f.histEntry == e.histEntry && f.ecmlen == e.ecmlen
      && f.caid == e.caid && f.sid == e.sid && f.chid == e.chid && f.provid == e.provid
  {
    hide Memcmp, NonZero, SameBytes, FindSeen, SameEcm, HalfEqual, LearnedNext, Steady;
    var d := if e.stage == 3 then Demote(cfg, e, r.now) else e;
    LearnedRange(d, r.cw);
    LearnedRange(d.(cycletime := r.now - e.time), r.cw);
  }

  // ----- storing -----

  /** What is stored bears the request's word, time and length, and is the newest of its ring. */
  lemma StoredShows(e: Entry, r: Request)
    requires 0 <= e.histEntry <= 14
    ensures
      var f := Stored(e, r);
      && f.cw == r.cw && f.time == r.now && f.ecmlen == r.ecmlen && !f.stale
      && f.histEntry == (e.histEntry + 1) % 15 && f.history[f.histEntry] == Seen(r.ecmd5, r.cspHash, r.cw)
      && (forall k :: 0 <= k < 15 && k != f.histEntry ==> f.history[k] == e.history[k])
      && f.stage == e.stage && f.cycletime == e.cycletime && f.dyncycletime == e.dyncycletime && f.nextcyclecw == e.nextcyclecw
      && f.locktime == e.locktime && f.stage4Repeat == e.stage4Repeat
      && f.caid == e.caid && f.sid == e.sid && f.chid == e.chid && f.provid == e.provid
  {
  }

  /** A new entry knows its request alone, or what a peer said. */
  lemma NewEntryShows(cfg: Config, r: Request)
    ensures
      var f := NewEntry(cfg, r);
      && f.cw == r.cw && f.time == r.now && f.locktime == r.now + r.fallbackSeconds && f.ecmlen == r.ecmlen && !f.stale
      && f.caid == r.caid && f.sid == r.srvid && f.chid == r.chid && f.provid == r.prid
      && (if Told(cfg, r) then f.stage == 3 && f.cycletime == r.cycletimeFr && f.nextcyclecw == r.nextFr
          else f.stage == 0 && f.cycletime == 99 && f.nextcyclecw == 2)
      && f.dyncycletime == 0 && f.stage4Repeat == 0 && f.histEntry == 0
      && f.history[0] == Seen(r.ecmd5, r.cspHash, r.cw)
      && forall k :: 1 <= k < 15 ==> f.history[k] == Seen(ZEROS, 0, ZEROS)
  {
  }

  // ----- which entry is asked -----

  /** An entry answers for the requests of its caid, provider, service and channel, and of its length, unless
      one of the two lengths is open. */
  lemma AnswersFor(cfg: Config, r: Request, q: Request)
    ensures Matches(NewEntry(cfg, r), q) <==>
      && q.caid == r.caid && q.prid == r.prid && q.srvid == r.srvid && q.chid == r.chid
      && (q.ecmlen == r.ecmlen || q.ecmlen == 0 || r.ecmlen == 0)
  {
  }

  /** A word is checked unless it is zero, but for BISS, and for Videoguard unless one half is zero. */
  lemma CheckableIff(r: Request, biss: bool, videoguard: bool)
    ensures Checkable(r, biss, videoguard) <==>
      && (r.cw == ZEROS ==> biss)
      && (videoguard ==> r.cw[..8] != ZEROS[..8] && r.cw[8..] != ZEROS[8..])
  {
    hide NonZero;
    ZeroWord(r.cw);
    FilledIff(r.cw, 0);
    FilledIff(r.cw, 1);
    assert r.cw[0..8] == r.cw[..8] && r.cw[8..16] == r.cw[8..];
  }

  lemma FilledIff(cw: Cw, half: int)
    requires 0 <= half <= 1
    ensures HalfFilled(cw, half) <==> cw[8 * half..8 * half + 8] != ZEROS[..8]
  {
    var lo := 8 * half;
    var x := cw[lo..lo + 8];
    if HalfFilled(cw, half) {
      var i :| lo <= i < lo + 8 && cw[i] != 0;
      assert x[i - lo] == cw[i] && ZEROS[..8][i - lo] == 0;
    } else {
      forall i | 0 <= i < 8
        ensures x[i] == ZEROS[..8][i]
      {
        assert x[i] == cw[lo + i];
      }
    }
  }

  /** A request that no entry answers for makes a new one on top, as long as there are not more than the
      configured number; it is not checked, or a peer's word is noted. */
  lemma NothingKnown(cfg: Config, s: Store, r: Request)
    requires AllStages(s.list) && forall i :: 0 <= i < |s.list| ==> !Matches(s.list[i], r)
    ensures
      var a := Answered(cfg, s, r);
      && (s.size >= cfg.maxCycleList + 1 ==> a == Answer(6, s, -1, -1))
      && (s.size <= cfg.maxCycleList ==>
            a == Answer(if r.cycletimeFr >= 1 && r.nextFr <= 1 then 8 else 6, Store([NewEntry(cfg, r)] + s.list, s.size + 1), -1, -1))
  {
    hide Matches;
  }

  /** The first entry that answers is marked old, and what is to be stored of its copy goes on top; the
      counter goes by those that are not old. */
  lemma FirstIsAsked(cfg: Config, s: Store, r: Request, k: nat)
    requires AllStages(s.list) && k < |s.list| && Matches(s.list[k], r) && forall i :: 0 <= i < k ==> !Matches(s.list[i], r)
    ensures StageInv(s.list[k]) && 0 <= Judge(cfg, s.list[k], r).entry.histEntry <= 14
    ensures
      var a, v := Answered(cfg, s, r), Judge(cfg, s.list[k], r);
      var rest := s.list[..k] + [s.list[k].(stale := true)] + s.list[k + 1..];
      && a.ret == v.ret && a.outNext == v.outNext && a.outCycletime == v.outCycletime
      && a.store.list == (if v.upd then [Stored(v.entry, r)] + rest else rest)
      && a.store.size == s.size + (if v.upd then 1 else 0) - (if s.list[k].stale then 0 else 1)
  {
    hide Matches, Judge;
    JudgeKeeps(cfg, s.list[k], r);
    JudgeKeepsHistory(cfg, s.list[k], r);
    assert FindFrom(s.list, r, 0) == k;
  }

  /** Cleanup keeps, of a list that is newest first, the entries of the last half minute beyond the
      minutes for which cycle times are kept. */
  lemma CleanupKeeps(cfg: Config, s: Store, now: int, i: nat)
    requires NewestFirst(s.list) && i < |s.list| && Counted(s)
    ensures
      var kept := Do(cfg, s, Cleanup(now)).list;
      kept <= s.list && (i < |kept| <==> now - s.list[i].time <= 60 * cfg.keepCycleTime + 30)
  {
  }

  /** Every entry of every run: its stage, when its next half is known, the places of its ring and how
      often stage 4 was repeated. */
  lemma EveryEntry(cfg: Config, s: Store, evs: seq<Event>, i: nat)
    requires s == Store([], 0) && !cfg.useCwcFromCe && i < |DoAll(cfg, s, evs).list|
    ensures
      var e := DoAll(cfg, s, evs).list[i];
      && 0 <= e.stage <= 4 && 0 <= e.histEntry <= 14 && (if e.stage == 3 then 0 <= e.nextcyclecw <= 1 else e.nextcyclecw == 2)
      && 0 <= e.stage4Repeat <= (if e.stage == 3 then 0 else if e.stage == 4 then 13 else 14)
  {
    EveryRunStages(cfg, s, evs);
    assert StageInv(DoAll(cfg, s, evs).list[i]);
  }
}
