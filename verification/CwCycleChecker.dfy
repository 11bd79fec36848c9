/** The control-word cycle checker as the program runs it (module-cw-cycle-check.c): a global list
    with its counter, changed step by step. The loops over the ring and over the list, the marking
    of old entries, the judgement and the cleanup are proved against the functions of CwCycle and
    CwCycleList. */
module CwCycleChecker {
  import opened Bytes
  import opened CwCycle
  import opened CwCycleList

  class Checker {
    const cfg: Config
    var list: seq<Entry>
    var size: int
    var lastCleaning: int

    ghost predicate Valid()
      reads this
    {
      Counted(Value())
    }

    ghost function Value(): Store
      reads this
    {
      Store(list, size)
    }

    constructor (cfg: Config)
      ensures Valid() && Value() == Store([], 0) && this.cfg == cfg
    {
      this.cfg := cfg;
      list, size, lastCleaning := [], 0, 0;
    }

    /** The loops that compare one half: `ok` is the half if it is unchanged, otherwise -1. */
    method CompareHalf(e: Entry, cw: Cw, half: int) returns (ok: int)
      requires half == 0 || half == 1
      ensures ok == if HalfEqual(e.cw, cw, half) then half else -1
    {
      ghost var x, y := e.cw[8 * half..8 * half + 8], cw[8 * half..8 * half + 8];
      ok := -1;
      var i := 0;
      while i < 8
        invariant 0 <= i <= 8
        invariant x[..i] == y[..i]
        invariant ok == if i == 0 then -1 else half
      {
        assert e.cw[i + 8 * half] == x[i] && cw[i + 8 * half] == y[i];
        if e.cw[i + 8 * half] == cw[i + 8 * half] {
          ok := half;
        } else {
          return -1;
        }
        assert x[..i + 1] == x[..i] + [x[i]] && y[..i + 1] == y[..i] + [y[i]];
        i := i + 1;
      }
      assert x == x[..8] && y == y[..8];
    }

    method CountCwPart(e: Entry, cw: Cw) returns (ret: nat)
      ensures ret == SameBytes(e.cw, cw, if e.nextcyclecw != 0 then 0 else 8, 8)
    {
      var eo := if e.nextcyclecw != 0 then 0 else 8;
      ret := 0;
      var i := 0;
      while i < 8
        invariant 0 <= i <= 8
        invariant ret == SameBytes(e.cw, cw, eo, i)
      {
        if e.cw[i + eo] == cw[i + eo] {
          ret := ret + 1;
        }
        i := i + 1;
      }
    }

    /** The search of the ring for an old request. */
    method FindOldEcm(e: Entry, r: Request) returns (k: nat)
      ensures k == FindSeen(e.history, r, 0)
    {
      k := 0;
      while k < 15
        invariant 0 <= k <= 15
        invariant FindSeen(e.history, r, 0) == FindSeen(e.history, r, k)
      {
        if SameEcm(r, e.history[k]) {
          return;
        }
        k := k + 1;
      }
    }

    /** The stage transitions of one learning pass. */
    method AdvanceClone(e: Entry, r: Request) returns (cwc: Entry)
      ensures cwc == Advance(e, r)
    {
      hide LearnedNext, Steady;
      cwc := e;
      var steady := Steady(cwc, r.now);
      if cwc.stage <= 0 {
        if steady {
          cwc := cwc.(cycletime := r.now - cwc.time);
          cwc := cwc.(stage := cwc.stage + 1);
        }
      } else if cwc.stage == 1 {
        if steady {
          cwc := cwc.(cycletime := r.now - cwc.time);
          cwc := cwc.(stage := cwc.stage + 1);
        } else {
          cwc := cwc.(stage := cwc.stage - 1);
        }
      } else if cwc.stage == 2 {
        if steady && cwc.cycletime > 0 {
          NextIgnoresCycletime(cwc, r.now - cwc.time, r.cw);
          cwc := cwc.(cycletime := r.now - cwc.time);
          var next := LearnNext(cwc, r.cw);
          cwc := cwc.(nextcyclecw := next);
          if cwc.nextcyclecw < 2 {
            cwc := cwc.(stage := 3);
          } else {
            cwc := cwc.(stage := 1);
          }
        } else {
          cwc := cwc.(stage := 1);
        }
      } else if cwc.stage == 4 {
        var next := LearnNext(cwc, r.cw);
        cwc := cwc.(nextcyclecw := next);
        if cwc.nextcyclecw < 2 {
          cwc := cwc.(stage := 3);
        } else if cwc.stage4Repeat > 12 {
          cwc := cwc.(stage := 1);
        }
        cwc := cwc.(stage4Repeat := cwc.stage4Repeat + 1);
      }
    }

    lemma NextIgnoresCycletime(e: Entry, t: int, cw: Cw)
      ensures LearnedNext(e.(cycletime := t), cw) == LearnedNext(e, cw)
    {
      hide Memcmp, NonZero;
    }

    /** The learning part, on the clone. */
    method LearnClone(e: Entry, r: Request, ret0: int) returns (cwc: Entry, ret: int, upd: bool)
      ensures Verdict(ret, cwc, upd, -1, -1) == Learn(e, r, ret0)
    {
      hide Advance;
      cwc, ret, upd := e, ret0, true;
      if r.now > cwc.locktime {
        if cwc.stage == 4 {
          ret := if ret == 3 then 3 else 7;
        }
        cwc := AdvanceClone(cwc, r);
        if cwc.stage == 3 {
          cwc := cwc.(locktime := 0, stage4Repeat := 0);
        } else {
          if cwc.stage < 3 {
            cwc := cwc.(cycletime := r.now - cwc.time);
          }
          cwc := cwc.(locktime := r.now + r.fallbackSeconds);
        }
      } else if cwc.stage != 3 {
        upd := false;
      }
      if cwc.stage == 3 {
        if r.now - cwc.time > cwc.cycletime {
          cwc := cwc.(dyncycletime := r.now - cwc.time - cwc.cycletime);
        } else {
          cwc := cwc.(dyncycletime := 0);
        }
      }
    }

    /** The two memcmp calls and what follows from them. */
    method LearnNext(cwc: Entry, cw: Cw) returns (next: int)
      ensures next == LearnedNext(cwc, cw)
    {
      hide Memcmp, NonZero;
      next := cwc.nextcyclecw;
      var n := Memcmp(cwc.cw[..8], cw[..8]);
      var m := Memcmp(cwc.cw[8..], cw[8..]);
      if n == 0 {
        next := 1;
      }
      if m == 0 {
        next := 0;
      }
      if n == m || !NonZero(cw) {
        next := 2;
      }
    }

    /** Everything between the copy of the entry and its storing. */
    method JudgeClone(e: Entry, r: Request) returns (v: Verdict)
      requires StageInv(e)
      ensures v == Judge(cfg, e, r)
    {
      hide NonZero, Learn, SameEcm, SameBytes, FindSeen, HalfEqual;
      var cwc := e;
      if cfg.useCwcFromCe {
        if r.cycletimeFr > 0 && r.nextFr < 2 {
          cwc := cwc.(stage := 3, cycletime := r.cycletimeFr, nextcyclecw := r.nextFr);
          if cwc.cw == r.cw {
            var code := if r.now - cwc.time >= cwc.cycletime - cwc.dyncycletime then (if cfg.dropOld then 2 else 4) else 4;
            return Verdict(code, cwc, false, -1, -1);
          }
          return Verdict(8, cwc, true, -1, -1);
        }
      }
      var ret := 6;
      if cwc.stage == 3 && cwc.nextcyclecw < 2 && r.now - cwc.time < cwc.cycletime * 2 - cwc.dyncycletime - 1 {
        if cwc.cw == r.cw {
          var code := if r.now - cwc.time >= cwc.cycletime - cwc.dyncycletime then (if cfg.dropOld then 2 else 4) else 4;
          return Verdict(code, cwc, false, -1, -1);
        }
        var cycleok := CompareHalf(cwc, r.cw, cwc.nextcyclecw);
        if cycleok >= 0 && cfg.sensitive != 0 {
          var same := CountCwPart(cwc, r.cw);
          if same >= cfg.sensitive {
            cycleok := -2;
          }
        }
        if cycleok >= 0 {
          ret := 0;
          var outCycletime := -1;
          if cwc.cycletime < 128 && !(cwc.caid == 0x0100 && cwc.provid == 0x00006A) {
            outCycletime := cwc.cycletime % 256;
          }
          cwc := cwc.(nextcyclecw := if cycleok == 0 then 1 else 0);
          var outNext := cwc.nextcyclecw;
          var upd;
          cwc, ret, upd := LearnClone(cwc, r, ret);
          return Verdict(ret, cwc, upd, outNext, outCycletime);
        }
        var k := FindOldEcm(cwc, r);
        if k < 15 {
          ret := if !cfg.dropOld && cwc.history[k].cw == r.cw then 4 else 2;
          return Verdict(ret, cwc, false, -1, -1);
        }
        if cfg.allowBadFromFfb {
          if r.posFallback {
            return Verdict(5, cwc.(stage := 4, nextcyclecw := 2), true, -1, -1);
          }
        }
        return Verdict(1, cwc, false, -1, -1);
      }
      if cwc.stage == 3 {
        if cfg.keepCycleTime > 0 && r.now - cwc.time < cfg.keepCycleTime * 60 {
          cwc := cwc.(stage := cwc.stage + 1);
        } else {
          cwc := cwc.(stage := cwc.stage - 1);
        }
        cwc := cwc.(cw := BLANK);
        ret := 3;
        cwc := cwc.(nextcyclecw := 2);
      }
      var upd;
      cwc, ret, upd := LearnClone(cwc, r, ret);
      v := Verdict(ret, cwc, upd, -1, -1);
    }

    /** checkcwcycle_int. */
    method CheckCwCycle(r: Request, biss: bool, videoguard: bool) returns (ret: int, outNext: int, outCycletime: int)
      requires Valid()
      modifies this
      ensures Valid()
      ensures !Checkable(r, biss, videoguard) ==> ret == 3 && Value() == old(Value()) && outNext == outCycletime == -1
      ensures Checkable(r, biss, videoguard) ==> Answer(ret, Value(), outNext, outCycletime) == Answered(cfg, old(Value()), r)
    {
      hide Judge, Stored, NewEntry, StageInv, Checkable, CountLive;
      if !Checkable(r, biss, videoguard) {
        return 3, -1, -1;
      }
      AnswerKeepsCount(cfg, Value(), r);
      var i := 0;
      while i < |list|
        invariant 0 <= i <= |list|
        invariant FindFrom(list, r, 0) == FindFrom(list, r, i)
      {
        if Matches(list[i], r) {
          var cwc := list[i];
          if !cwc.stale {
            list := list[i := list[i].(stale := true)];
            size := size - 1;
          }
          JudgeKeeps(cfg, cwc, r);
          var v := JudgeClone(cwc, r);
          if v.upd {
            StoredInv(v.entry, r);
            list := [Stored(v.entry, r)] + list;
            size := size + 1;
          }
          assert old(list)[i := cwc.(stale := true)] == if cwc.stale then old(list) else old(list)[i := cwc.(stale := true)];
          return v.ret, v.outNext, v.outCycletime;
        }
        i := i + 1;
      }
      ret, outNext, outCycletime := 6, -1, -1;
      if size <= cfg.maxCycleList {
        list := [NewEntry(cfg, r)] + list;
        size := size + 1;
        ret := if r.cycletimeFr > 0 && r.nextFr < 2 then 8 else 6;
      }
    }

    /** Frees the entries cut off, taking the live ones out of the count. */
    method FreeAll(tail: seq<Entry>)
      modifies this`size
      ensures size == old(size) - CountLive(tail)
    {
      var rest := tail;
      while rest != []
        invariant size == old(size) - CountLive(tail) + CountLive(rest)
        decreases |rest|
      {
        if !rest[0].stale {
          size := size - 1;
        }
        rest := rest[1..];
      }
    }

    /** The search for the first entry that is too old. */
    method CutPoint(now: int, kct: int) returns (count: nat)
      ensures count == FirstTooOld(list, now, kct, 0)
    {
      count := 0;
      while count < |list|
        invariant 0 <= count <= |list|
        invariant FirstTooOld(list, now, kct, 0) == FirstTooOld(list, now, kct, count)
      {
        if now - list[count].time <= kct {
          count := count + 1;
        } else {
          return;
        }
      }
    }

    /** cleanupcwcycle: once in two minutes, cut the list at the first entry that is too old. */
    method Cleanup(now: int)
      requires Valid()
      modifies this
      ensures Valid()
      ensures Value() == if old(lastCleaning) + 120 > now then old(Value()) else Cleaned(old(Value()), now, Keep(cfg))
      ensures lastCleaning == if old(lastCleaning) + 120 > now then old(lastCleaning) else now
    {
      hide StageInv, CountLive, FirstTooOld;
      if lastCleaning + 120 > now {
        return;
      }
      lastCleaning := now;
      var kct := cfg.keepCycleTime * 60 + 30;
      CleanKeepsCount(Value(), now, kct);
      var count := CutPoint(now, kct);
      var tail := list[count..];
      list := list[..count];
      FreeAll(tail);
    }
  }
}
