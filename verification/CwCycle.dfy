/** One entry of the control-word cycle checker (module-cw-cycle-check.c): the five-stage
    learning machine, the cycle check of stage 3 and the ring of recent requests. */
module CwCycle {
  import opened Bytes

  type Cw = c: seq<byte> | |c| == 16 witness seq(16, _ => 0)

  /** struct s_cwc_md5. */
  datatype Seen = Seen(md5: Cw, cspHash: nat, cw: Cw)

  const BLANK: Cw := [0, 0, 0, 0, 0, 0, 0, 0, 0, 0, 0, 0, 0, 0, 0, 0]

  const UNSEEN: Seen := Seen(BLANK, 0, BLANK)

  type Ring = r: seq<Seen> | |r| == 15 witness seq(15, _ => UNSEEN)

  /** struct s_cw_cycle_check. */
  datatype Entry = Entry(
    cw: Cw, time: int, locktime: int,
    caid: nat, sid: nat, chid: nat, provid: nat, ecmlen: int,
    stage: int, cycletime: int, dyncycletime: int, nextcyclecw: int,
    history: Ring, histEntry: int, stale: bool, stage4Repeat: int)

  /** The configuration the checker reads. */
  datatype Config = Config(
    useCwcFromCe: bool, dropOld: bool, sensitive: int, allowBadFromFfb: bool,
    keepCycleTime: int, maxCycleList: int)

  /** One checked answer: the request, its control word, what a cache-exchange peer said about
      the cycle, whether the answering reader is a fixed fallback, and get_fallbacktimeout / 1000. */
  datatype Request = Request(
    caid: nat, prid: nat, srvid: nat, chid: nat, ecmlen: int, now: int,
    ecmd5: Cw, cspHash: nat, cw: Cw,
    cycletimeFr: byte, nextFr: byte, posFallback: bool, fallbackSeconds: nat)

  /** The return code, the cloned entry as changed, whether it is to be stored, and what the
      request learns: er->cwc_next_cw_cycle and er->cwc_cycletime (-1: left alone). */
  datatype Verdict = Verdict(ret: int, entry: Entry, upd: bool, outNext: int, outCycletime: int)

  // ----- comparing control words -----

  predicate HalfEqual(x: Cw, y: Cw, half: int)
    requires half == 0 || half == 1
  {
    x[8 * half..8 * half + 8] == y[8 * half..8 * half + 8]
  }

  /** The number of equal bytes among the first n from position eo. */
  function SameBytes(x: Cw, y: Cw, eo: nat, n: nat): nat
    requires eo + n <= 16
  {
    if n == 0 then 0 else SameBytes(x, y, eo, n - 1) + if x[eo + n - 1] == y[eo + n - 1] then 1 else 0
  }

  predicate NonZero(x: Cw) { exists i :: 0 <= i < 16 && x[i] != 0 }

  /** The sign of memcmp. */
  function Memcmp(x: seq<byte>, y: seq<byte>): (r: int)
    requires |x| == |y|
    ensures r == 0 <==> x == y
    decreases |x|
  {
    if x == [] then 0
    else if x[0] < y[0] then -1
    else if x[0] > y[0] then 1
    else
      assert x == [x[0]] + x[1..] && y == [y[0]] + y[1..];
      Memcmp(x[1..], y[1..])
  }

  /** A 16-bit signed variable. */
  function Int16(x: int): int { (x + 0x8000) % 0x10000 - 0x8000 }

  // ----- the check of a stage 3 entry -----

  function SameCwCode(cfg: Config, e: Entry, now: int): int {
    if now - e.time >= e.cycletime - e.dyncycletime && cfg.dropOld then 2 else 4
  }

  predicate PeerKnows(cfg: Config, r: Request) { cfg.useCwcFromCe && r.cycletimeFr > 0 && r.nextFr < 2 }

  predicate InWindow(e: Entry, now: int) {
    e.stage == 3 && e.nextcyclecw < 2 && now - e.time < e.cycletime * 2 - e.dyncycletime - 1
  }

  /** 0 or 1: that half is the one that stays; -1: it changed; -2: the other half did not change enough. */
  function CycleOk(cfg: Config, e: Entry, r: Request): int {
    if (e.nextcyclecw == 0 || e.nextcyclecw == 1) && HalfEqual(e.cw, r.cw, e.nextcyclecw) then
      if cfg.sensitive != 0 && SameBytes(e.cw, r.cw, if e.nextcyclecw != 0 then 0 else 8, 8) >= cfg.sensitive then -2
      else e.nextcyclecw
    else -1
  }

  predicate SameEcm(r: Request, s: Seen) {
    (NonZero(r.ecmd5) && NonZero(s.md5) && r.ecmd5 == s.md5) || (r.cspHash != 0 && s.cspHash != 0 && r.cspHash == s.cspHash)
  }

  /** The first slot of the ring that holds this request, 15 if none does. */
  function FindSeen(ring: Ring, r: Request, k: nat): (i: nat)
    requires k <= 15
    ensures k <= i <= 15
    ensures forall j :: k <= j < i ==> !SameEcm(r, ring[j])
    ensures i < 15 ==> SameEcm(r, ring[i])
    decreases 15 - k
  {
    if k == 15 || SameEcm(r, ring[k]) then k else FindSeen(ring, r, k + 1)
  }

  function ExportedCycletime(e: Entry): int {
    if e.cycletime < 128 && !(e.caid == 0x0100 && e.provid == 0x6A) then e.cycletime % 256 else -1
  }

  // ----- learning -----

  /** Which half stayed, judged from the stored and the new word; 2 if that is not clear. */
  function LearnedNext(e: Entry, cw: Cw): int {
    var n := Memcmp(e.cw[..8], cw[..8]);
    var m := Memcmp(e.cw[8..], cw[8..]);
    if n == m || !NonZero(cw) then 2
    else if m == 0 then 0
    else if n == 0 then 1
    else e.nextcyclecw
  }

  predicate Steady(e: Entry, now: int) {
    var diff := Int16(now - e.time - e.cycletime);
    -2 < diff < 2
  }

  /** The stage transition of one learning pass. */
  function Advance(e: Entry, r: Request): Entry {
    if e.stage <= 0 then
      if Steady(e, r.now) then e.(cycletime := r.now - e.time, stage := e.stage + 1) else e
    else if e.stage == 1 then
      if Steady(e, r.now) then e.(cycletime := r.now - e.time, stage := 2) else e.(stage := 0)
    else if e.stage == 2 then
      if Steady(e, r.now) && e.cycletime > 0 then
        var next := LearnedNext(e, r.cw);
        e.(cycletime := r.now - e.time, nextcyclecw := next, stage := if next < 2 then 3 else 1)
      else e.(stage := 1)
    else if e.stage == 4 then
      var next := LearnedNext(e, r.cw);
      e.(nextcyclecw := next, stage4Repeat := e.stage4Repeat + 1,
         stage := if next < 2 then 3 else if e.stage4Repeat > 12 then 1 else 4)
    else e
  }

  function Settle(e: Entry, r: Request): Entry {
    if e.stage == 3 then e.(locktime := 0, stage4Repeat := 0)
    else e.(locktime := r.now + r.fallbackSeconds, cycletime := if e.stage < 3 then r.now - e.time else e.cycletime)
  }

  /** "We stay in stage 3": how late the word came. */
  function Lateness(e: Entry, now: int): Entry {
    if e.stage != 3 then e
    else e.(dyncycletime := if now - e.time > e.cycletime then now - e.time - e.cycletime else 0)
  }

  predicate Locked(e: Entry, r: Request) { r.now <= e.locktime }

  /** The learning part, reached with return code ret. */
  function Learn(e: Entry, r: Request, ret: int): Verdict {
    if !Locked(e, r) then
      var learned := Lateness(Settle(Advance(e, r), r), r.now);
      Verdict(if e.stage == 4 && ret != 3 then 7 else ret, learned, true, -1, -1)
    else
      Verdict(ret, Lateness(e, r.now), e.stage == 3, -1, -1)
  }

  /** A stage 3 entry whose window has passed falls back to stage 4 or 2 with a blank word. */
  function Demote(cfg: Config, e: Entry, now: int): Entry {
    e.(stage := if cfg.keepCycleTime > 0 && now - e.time < cfg.keepCycleTime * 60 then 4 else 2,
       cw := BLANK, nextcyclecw := 2)
  }

  /** The cycle check proper. */
  function CheckCycle(cfg: Config, e: Entry, r: Request): Verdict {
    if e.cw == r.cw then Verdict(SameCwCode(cfg, e, r.now), e, false, -1, -1)
    else
      var ok := CycleOk(cfg, e, r);
      if ok >= 0 then
        var v := Learn(e.(nextcyclecw := 1 - ok), r, 0);
        v.(outNext := 1 - ok, outCycletime := ExportedCycletime(e))
      else
        var k := FindSeen(e.history, r, 0);
        if k < 15 then Verdict(if !cfg.dropOld && e.history[k].cw == r.cw then 4 else 2, e, false, -1, -1)
        else if cfg.allowBadFromFfb && r.posFallback then Verdict(5, e.(stage := 4, nextcyclecw := 2), true, -1, -1)
        else Verdict(1, e, false, -1, -1)
  }

  /** Everything the checker does with the clone of a matching entry. */
  function Judge(cfg: Config, e: Entry, r: Request): Verdict {
    if PeerKnows(cfg, r) then
      var e1 := e.(stage := 3, cycletime := r.cycletimeFr, nextcyclecw := r.nextFr);
      if e.cw == r.cw then Verdict(SameCwCode(cfg, e1, r.now), e1, false, -1, -1)
      else Verdict(8, e1, true, -1, -1)
    else if InWindow(e, r.now) then CheckCycle(cfg, e, r)
    else if e.stage == 3 then Learn(Demote(cfg, e, r.now), r, 3)
    else Learn(e, r, 6)
  }

  /** The clone as it goes on top of the list. */
  function Stored(e: Entry, r: Request): Entry
    requires 0 <= e.histEntry <= 14
  {
    var h := if e.histEntry + 1 > 14 then 0 else e.histEntry + 1;
    e.(stale := false, cw := r.cw, time := r.now, histEntry := h,
       history := e.history[h := Seen(r.ecmd5, r.cspHash, r.cw)], ecmlen := r.ecmlen)
  }

  function NewEntry(cfg: Config, r: Request): Entry {
    Entry(r.cw, r.now, r.now + r.fallbackSeconds, r.caid, r.srvid, r.chid, r.prid, r.ecmlen,
          if PeerKnows(cfg, r) then 3 else 0,
          if PeerKnows(cfg, r) then r.cycletimeFr else 99,
          0,
          if PeerKnows(cfg, r) then r.nextFr else 2,
          seq(15, _ => UNSEEN)[0 := Seen(r.ecmd5, r.cspHash, r.cw)], 0, false, 0)
  }

  // ----- the stage machine invariant -----

  /** Stage 3 exactly when the half that stays next is known, ring index inside the ring. */
  predicate StageInv(e: Entry) {
    && 0 <= e.stage <= 4 && 0 <= e.histEntry <= 14
    && (e.stage == 3 ==> e.nextcyclecw == 0 || e.nextcyclecw == 1)
    && (e.stage != 3 ==> e.nextcyclecw == 2)
  }

  /** Stage 4 is bounded, as long as no cycle information is taken from peers. */
  predicate RepeatInv(e: Entry) {
    && 0 <= e.stage4Repeat <= 14
    && (e.stage == 3 ==> e.stage4Repeat == 0)
    && (e.stage == 4 ==> e.stage4Repeat <= 13)
  }

  lemma LearnKeeps(e: Entry, r: Request, ret: int)
    requires StageInv(e)
    ensures StageInv(Learn(e, r, ret).entry)
    ensures RepeatInv(e) ==> RepeatInv(Learn(e, r, ret).entry)
  {
    hide Memcmp, NonZero, Int16;
  }

  /** Every verdict keeps both invariants on the clone. */
  lemma JudgeKeeps(cfg: Config, e: Entry, r: Request)
    requires StageInv(e)
    ensures StageInv(Judge(cfg, e, r).entry)
    ensures RepeatInv(e) && !cfg.useCwcFromCe ==> RepeatInv(Judge(cfg, e, r).entry)
  {
    hide Learn, NonZero, SameBytes, FindSeen, Int16, SameEcm;
    if !PeerKnows(cfg, r) {
      if InWindow(e, r.now) {
        LearnKeeps(e.(nextcyclecw := 1 - e.nextcyclecw), r, 0);
      } else if e.stage == 3 {
        LearnKeeps(Demote(cfg, e, r.now), r, 3);
      } else {
        LearnKeeps(e, r, 6);
      }
    }
  }

  /** One answer for a stored entry: the entry afterwards, stored or not. */
  function Pass(cfg: Config, e: Entry, r: Request): (f: Entry)
    requires StageInv(e)
    ensures StageInv(f)
  {
    JudgeKeeps(cfg, e, r);
    var v := Judge(cfg, e, r);
    if v.upd then Stored(v.entry, r) else e
  }

  function Passes(cfg: Config, e: Entry, rs: seq<Request>): (r: Entry)
    requires StageInv(e)
    ensures StageInv(r)
    decreases |rs|
  {
    if rs == [] then e else Passes(cfg, Pass(cfg, e, rs[0]), rs[1..])
  }

  /** Every run of answers keeps the invariants. */
  lemma {:induction false} RunKeeps(cfg: Config, e: Entry, rs: seq<Request>)
    requires StageInv(e)
    ensures StageInv(Passes(cfg, e, rs))
    ensures RepeatInv(e) && !cfg.useCwcFromCe ==> RepeatInv(Passes(cfg, e, rs))
    decreases |rs|
  {
    hide Judge;
    if rs != [] {
      JudgeKeeps(cfg, e, rs[0]);
      RunKeeps(cfg, Pass(cfg, e, rs[0]), rs[1..]);
    }
  }

  /** An answer that finds the entry unlocked in stage 4, and takes nothing from peers. */
  predicate LearningPass(cfg: Config, e: Entry, r: Request) {
    !PeerKnows(cfg, r) && !Locked(e, r)
  }

  /** A learning pass in stage 4 leaves it or counts. */
  lemma Stage4Counts(cfg: Config, e: Entry, r: Request)
    requires StageInv(e) && e.stage == 4 && LearningPass(cfg, e, r)
    ensures
      var f := Pass(cfg, e, r);
      f.stage != 4 || (e.stage4Repeat <= 12 && f.stage4Repeat == e.stage4Repeat + 1)
  {
    hide Memcmp, NonZero, Int16;
  }

  /** Counting from the entry as stored, stage 4 is left within 14 learning passes. */
  lemma {:induction false} LeavesStage4(cfg: Config, e: Entry, rs: seq<Request>)
    requires StageInv(e) && e.stage == 4 && 0 <= e.stage4Repeat <= 13
    requires |rs| == 14 - e.stage4Repeat
    requires forall i :: 0 <= i < |rs| ==> LearningPass(cfg, Passes(cfg, e, rs[..i]), rs[i])
    ensures exists i :: 0 < i <= |rs| && Passes(cfg, e, rs[..i]).stage != 4
    decreases |rs|
  {
    hide Judge, LearningPass, Pass;
    assert rs[..0] == [];
    var f := Pass(cfg, e, rs[0]);
    Stage4Counts(cfg, e, rs[0]);
    assert rs[..1][1..] == [] && rs[..1][0] == rs[0];
    assert Passes(cfg, e, rs[..1]) == f;
    if f.stage == 4 {
      var tail := rs[1..];
      forall i | 0 <= i <= |tail|
        ensures Passes(cfg, f, tail[..i]) == Passes(cfg, e, rs[..i + 1])
      {
        assert rs[..i + 1][1..] == tail[..i];
      }
      LeavesStage4(cfg, f, tail);
      var i :| 0 < i <= |tail| && Passes(cfg, f, tail[..i]).stage != 4;
      assert Passes(cfg, e, rs[..i + 1]).stage != 4;
    }
  }

  // ----- what verdict 0 means -----

  /** Verdict 0 is given if and only if the entry is in its window, the half named by
      nextcyclecw is the stored one, the word is not the stored one as a whole, and, when the
      sensitivity is on, fewer bytes than that agree in the other half. */
  lemma VerdictZeroIff(cfg: Config, e: Entry, r: Request)
    requires StageInv(e)
    ensures Judge(cfg, e, r).ret == 0 <==>
      && !PeerKnows(cfg, r) && InWindow(e, r.now)
      && HalfEqual(e.cw, r.cw, e.nextcyclecw)
      && !HalfEqual(e.cw, r.cw, 1 - e.nextcyclecw)
      && (cfg.sensitive == 0 || SameBytes(e.cw, r.cw, 8 * (1 - e.nextcyclecw), 8) < cfg.sensitive)
  {
    hide Memcmp, NonZero, Int16, SameBytes, FindSeen, SameEcm, Advance, Settle, Lateness;
    HalvesMakeWord(e.cw, r.cw);
  }

  lemma HalvesMakeWord(x: Cw, y: Cw)
    ensures x == y <==> HalfEqual(x, y, 0) && HalfEqual(x, y, 1)
  {
    assert x == x[0..8] + x[8..16] && y == y[0..8] + y[8..16];
  }

  /** A verdict 0 is always stored, flips the half, remembers the word, and announces the half. */
  lemma VerdictZeroStores(cfg: Config, e: Entry, r: Request)
    requires StageInv(e) && Judge(cfg, e, r).ret == 0
    ensures
      var v := Judge(cfg, e, r);
      && v.upd && Pass(cfg, e, r).stage == 3 && Pass(cfg, e, r).cw == r.cw
      && Pass(cfg, e, r).nextcyclecw == v.outNext == 1 - e.nextcyclecw
  {
    hide Memcmp, NonZero, Int16, SameBytes, FindSeen, SameEcm, HalfEqual;
  }

  /** Along verdict-0 answers for one entry the half that stays alternates strictly: answer i
      keeps the half that answer i - 1 replaced. */
  lemma {:induction false} HalvesAlternate(cfg: Config, e: Entry, rs: seq<Request>)
    requires StageInv(e) && e.stage == 3
    requires forall i :: 0 <= i < |rs| ==> Judge(cfg, Passes(cfg, e, rs[..i]), rs[i]).ret == 0
    ensures forall i :: 0 < i < |rs| ==>
      var half := if i % 2 == 0 then e.nextcyclecw else 1 - e.nextcyclecw;
      HalfEqual(rs[i - 1].cw, rs[i].cw, half) && !HalfEqual(rs[i - 1].cw, rs[i].cw, 1 - half)
    decreases |rs|
  {
    hide Judge, HalfEqual, Pass;
    if |rs| > 1 {
      assert rs[..0] == [];
      var f := Pass(cfg, e, rs[0]);
      VerdictZeroStores(cfg, e, rs[0]);
      var tail := rs[1..];
      forall i | 0 <= i < |tail|
        ensures Judge(cfg, Passes(cfg, f, tail[..i]), tail[i]).ret == 0
      {
        assert rs[..i + 1][1..] == tail[..i] && rs[..i + 1][0] == rs[0];
      }
      HalvesAlternate(cfg, f, tail);
      assert tail[..0] == [];
      VerdictZeroIff(cfg, f, rs[1]);
      forall i | 0 < i < |rs|
        ensures
          var half := if i % 2 == 0 then e.nextcyclecw else 1 - e.nextcyclecw;
          HalfEqual(rs[i - 1].cw, rs[i].cw, half) && !HalfEqual(rs[i - 1].cw, rs[i].cw, 1 - half)
      {
        if i > 1 {
          assert tail[i - 1] == rs[i] && tail[i - 2] == rs[i - 1];
        }
      }
    }
  }

  // ----- what the request is told -----

  /** Learned cycle times are never negative when time does not run backwards. */
  predicate CycleInv(e: Entry) { e.cycletime >= 0 }

  lemma JudgeKeepsCycle(cfg: Config, e: Entry, r: Request)
    requires StageInv(e) && CycleInv(e) && e.time <= r.now
    ensures CycleInv(Judge(cfg, e, r).entry)
    ensures
      var v := Judge(cfg, e, r);
      -1 <= v.outCycletime < 128 && (v.outCycletime >= 0 ==> v.outCycletime == e.cycletime && 0 <= v.outNext < 2)
  {
    hide Memcmp, NonZero, Int16, SameBytes, FindSeen, SameEcm, HalfEqual;
    AnnouncesOwn(cfg, e, r);
  }

  /** Whatever the times, what is announced is the low byte of the entry's own cycle time, and
      that is the cycle time itself exactly if it is not negative. */
  lemma AnnouncesOwn(cfg: Config, e: Entry, r: Request)
    requires StageInv(e)
    ensures
      var v := Judge(cfg, e, r);
      && (v.outCycletime == -1 || (v.outCycletime == e.cycletime % 256 && e.cycletime < 128 && 0 <= v.outNext < 2))
      && (v.outCycletime != -1 ==> (v.outCycletime == e.cycletime <==> e.cycletime >= 0))
  {
    hide Memcmp, NonZero, Int16, SameBytes, FindSeen, SameEcm, HalfEqual, Advance, Settle, Lateness;
  }

  // ----- what is learned -----

  /** From an entry that expects nothing, a half is learned exactly if it alone changed; it is
      the one expected to stay next. */
  lemma LearnedIff(e: Entry, cw: Cw, half: int)
    requires e.nextcyclecw == 2 && (half == 0 || half == 1)
    ensures LearnedNext(e, cw) == half <==> NonZero(cw) && !HalfEqual(e.cw, cw, half) && HalfEqual(e.cw, cw, 1 - half)
  {
    hide NonZero;
    var n, m := Memcmp(e.cw[..8], cw[..8]), Memcmp(e.cw[8..], cw[8..]);
    assert e.cw[..8] == e.cw[0..8] && cw[..8] == cw[0..8];
    assert e.cw[8..] == e.cw[8..16] && cw[8..] == cw[8..16];
    hide Memcmp;
  }

  /** A learning pass from stage 2 or 4 ends in stage 3 exactly if one half changed alone, from
      stage 2 only if the answer came at most a second off a positive cycle time, in 16 bits; the
      entry then expects that half to stay. */
  lemma EntersStage3Iff(cfg: Config, e: Entry, r: Request)
    requires StageInv(e) && (e.stage == 2 || e.stage == 4) && LearningPass(cfg, e, r)
    ensures
      var f := Pass(cfg, e, r);
      && (f.stage == 3 <==> (e.stage == 4 || ((r.now - e.time - e.cycletime + 1) % 0x10000 <= 2 && e.cycletime > 0))
                            && NonZero(r.cw) && HalfEqual(e.cw, r.cw, 0) != HalfEqual(e.cw, r.cw, 1))
      && (f.stage == 3 ==> f.cw == r.cw && HalfEqual(e.cw, r.cw, 1 - f.nextcyclecw))
  {
    hide LearnedNext, NonZero, HalfEqual;
    LearnedIff(e, r.cw, 0);
    LearnedIff(e.(cycletime := r.now - e.time), r.cw, 0);
    LearnedIff(e, r.cw, 1);
    LearnedIff(e.(cycletime := r.now - e.time), r.cw, 1);
    LearnedRange(e, r.cw);
  }

  lemma LearnedRange(e: Entry, cw: Cw)
    requires e.nextcyclecw == 2
    ensures 0 <= LearnedNext(e, cw) <= 2
  {
    hide Memcmp, NonZero;
  }

  // ----- the ring of recent requests -----

  function SeenOf(r: Request): Seen { Seen(r.ecmd5, r.cspHash, r.cw) }

  /** The request stored i steps ago. */
  function Back(e: Entry, i: nat): Seen
    requires 0 <= e.histEntry <= 14 && i < 15
  {
    e.history[if i <= e.histEntry then e.histEntry - i else e.histEntry - i + 15]
  }

  /** The ring holds the last stored requests, up to 15, the newest where the index points. */
  predicate RingIs(e: Entry, log: seq<Seen>) {
    && 0 <= e.histEntry <= 14
    && forall i :: 0 <= i < |log| && i < 15 ==> Back(e, i) == log[|log| - 1 - i]
  }

  /** What one answer adds to the log. */
  function Logged(cfg: Config, e: Entry, r: Request): seq<Seen> { if Judge(cfg, e, r).upd then [SeenOf(r)] else [] }

  /** The requests stored along a run. */
  function Log(cfg: Config, e: Entry, rs: seq<Request>): seq<Seen>
    requires StageInv(e)
    decreases |rs|
  {
    if rs == [] then []
    else Logged(cfg, e, rs[0]) + Log(cfg, Pass(cfg, e, rs[0]), rs[1..])
  }

  /** Storing moves every request in the ring one step back. */
  lemma BackStored(e: Entry, r: Request, i: nat)
    requires 0 <= e.histEntry <= 14 && i < 15
    ensures 0 <= Stored(e, r).histEntry <= 14
    ensures Back(Stored(e, r), i) == if i == 0 then SeenOf(r) else Back(e, i - 1)
  {
  }

  lemma StoredExtendsRing(e: Entry, r: Request, log: seq<Seen>)
    requires RingIs(e, log)
    ensures RingIs(Stored(e, r), log + [SeenOf(r)])
  {
    hide Stored, Back;
    BackStored(e, r, 0);
    forall i | 0 <= i < |log + [SeenOf(r)]| && i < 15
      ensures Back(Stored(e, r), i) == (log + [SeenOf(r)])[|log + [SeenOf(r)]| - 1 - i]
    {
      BackStored(e, r, i);
    }
  }

  lemma JudgeKeepsHistory(cfg: Config, e: Entry, r: Request)
    ensures Judge(cfg, e, r).entry.history == e.history && Judge(cfg, e, r).entry.histEntry == e.histEntry
  {
    hide NonZero, Memcmp, Int16, SameBytes, FindSeen, SameEcm, HalfEqual;
  }

  lemma PassKeepsRing(cfg: Config, e: Entry, r: Request, log: seq<Seen>)
    requires StageInv(e) && RingIs(e, log)
    ensures RingIs(Pass(cfg, e, r), log + Logged(cfg, e, r))
  {
    hide Judge, RingIs, StageInv, Stored;
    JudgeKeepsHistory(cfg, e, r);
    var v := Judge(cfg, e, r);
    SameRing(e, v.entry, log);
    if v.upd {
      StoredExtendsRing(v.entry, r, log);
    } else {
      assert log + [] == log;
    }
  }

  /** Along every run the ring holds the last stored requests. */
  lemma {:induction false} RunKeepsRing(cfg: Config, e: Entry, rs: seq<Request>, log: seq<Seen>)
    requires StageInv(e) && RingIs(e, log)
    ensures RingIs(Passes(cfg, e, rs), log + Log(cfg, e, rs))
    decreases |rs|
  {
    hide Judge, RingIs, StageInv, Pass, Logged;
    if rs == [] {
      assert log + [] == log;
    } else {
      PassKeepsRing(cfg, e, rs[0], log);
      var f, more := Pass(cfg, e, rs[0]), Logged(cfg, e, rs[0]);
      RunKeepsRing(cfg, f, rs[1..], log + more);
      assert log + more + Log(cfg, f, rs[1..]) == log + (more + Log(cfg, f, rs[1..]));
    }
  }

  lemma SameRing(e: Entry, f: Entry, log: seq<Seen>)
    requires RingIs(e, log) && f.history == e.history && f.histEntry == e.histEntry
    ensures RingIs(f, log) && 0 <= f.histEntry <= 14
  {
    assert forall i :: 0 <= i < 15 ==> Back(f, i) == Back(e, i);
  }

  /** A repeated request is no bad cycle: one of the last 15 stored requests is never answered
      with verdict 1, nor let through as a fallback's, whatever its word. */
  lemma RepeatedIsNotBad(cfg: Config, e: Entry, r: Request, log: seq<Seen>, i: nat)
    requires StageInv(e) && RingIs(e, log) && i < |log| && i < 15 && SameEcm(r, log[|log| - 1 - i])
    ensures Judge(cfg, e, r).ret != 1 && Judge(cfg, e, r).ret != 5
  {
    hide NonZero, Memcmp, Int16, SameBytes, SameEcm, HalfEqual, Advance, Settle, Lateness;
    assert SameEcm(r, Back(e, i));
  }

  /** A bad cycle is answered exactly for a word in the window that differs from the stored one
      and does not continue its cycle, for a request that the ring does not hold, unless a
      fallback's word is let through. It does not continue the cycle if the half named by
      nextcyclecw changed, or too many bytes of the other half stayed. */
  lemma BadCycleIff(cfg: Config, e: Entry, r: Request)
    requires StageInv(e)
    ensures Judge(cfg, e, r).ret == 1 <==>
      && !PeerKnows(cfg, r) && InWindow(e, r.now) && e.cw != r.cw
      && (HalfEqual(e.cw, r.cw, e.nextcyclecw) ==>
            cfg.sensitive != 0 && SameBytes(e.cw, r.cw, 8 * (1 - e.nextcyclecw), 8) >= cfg.sensitive)
      && (forall k :: 0 <= k < 15 ==> !SameEcm(r, e.history[k]))
      && !(cfg.allowBadFromFfb && r.posFallback)
  {
    hide NonZero, Memcmp, Int16, SameBytes, SameEcm, HalfEqual, Advance, Settle, Lateness;
  }
}
