/** Attributing replies in CCcam's extended mode (module-cccam.c): up to 255 requests are on their
    way at once, and a one-byte index that the server sends back says which one is answered. */
module ExtendedEcm {
  import opened Bytes
  import opened Cards

  /** struct cc_extended_ecm_idx without times; `card` names a card, or nothing once the card
      was moved. */
  datatype Pending = Pending(sendIdx: byte, ecmIdx: nat, card: Option<nat>, sid: Sid)

  /** server_ecm_idx and the list extended_ecm_idx. */
  datatype Indexes = Indexes(counter: byte, pending: seq<Pending>)

  /** What the reader asks for. */
  datatype Request = Request(ecmIdx: nat, card: nat, sid: Sid)

  function NextIdx(counter: byte): byte {
    if counter + 1 >= 256 then 1 else counter + 1
  }

  /** Position of the first entry with an index, or the length. */
  function Find(pending: seq<Pending>, idx: byte): (i: nat)
    ensures i <= |pending|
    ensures i < |pending| ==> pending[i].sendIdx == idx
    ensures forall j :: 0 <= j < i ==> pending[j].sendIdx != idx
    decreases |pending|
  {
    if pending == [] then 0 else if pending[0].sendIdx == idx then 0 else 1 + Find(pending[1..], idx)
  }

  /** get_extended_ecm_idx. */
  function Lookup(pending: seq<Pending>, idx: byte): Option<Pending> {
    var i := Find(pending, idx);
    if i < |pending| then Some(pending[i]) else None
  }

  function EntryFor(idx: byte, r: Request): Pending { Pending(idx, r.ecmIdx, Some(r.card), r.sid) }

  /** The index part of cc_send_ecm: an entry with the index is overwritten, else one is added. */
  function Send(s: Indexes, r: Request): Indexes {
    var idx := NextIdx(s.counter);
    var i := Find(s.pending, idx);
    Indexes(idx, if i < |s.pending| then s.pending[i := EntryFor(idx, r)] else s.pending + [EntryFor(idx, r)])
  }

  /** A reply takes the entry with its index out of the list. */
  function Reply(s: Indexes, idx: byte): (Option<Pending>, Indexes) {
    var i := Find(s.pending, idx);
    if i == |s.pending| then (None, s) else (Some(s.pending[i]), s.(pending := s.pending[..i] + s.pending[i + 1..]))
  }

  /** free_extended_ecm_idx_by_card: entries of a removed card go, those of a moved card stay
      without it. */
  function ForgetCard(pending: seq<Pending>, card: nat, nullOnly: bool): (r: seq<Pending>)
    ensures |r| <= |pending|
    decreases |pending|
  {
    if pending == [] then []
    else
      (if pending[0].card != Some(card) then [pending[0]] else if nullOnly then [] else [pending[0].(card := None)])
      + ForgetCard(pending[1..], card, nullOnly)
  }

  /** The index goes from 1 to 255 and round again. */
  lemma IndexGoesRound()
    ensures NextIdx(0) == 1 && NextIdx(254) == 255 && NextIdx(255) == 1
    ensures forall i: byte :: i <= 254 ==> NextIdx(i) as int == i as int + 1
  {
  }

  /** Requests of other cards stay as they are; those of the card go with it, or stay without it. */
  lemma {:induction false} ForgottenShows(pending: seq<Pending>, card: nat, nullOnly: bool, p: Pending)
    ensures p in ForgetCard(pending, card, nullOnly) <==>
      || (p in pending && p.card != Some(card))
      || (!nullOnly && p.card == None && p.(card := Some(card)) in pending)
    decreases |pending|
  {
    if pending != [] {
      ForgottenShows(pending[1..], card, nullOnly, p);
      var head := if pending[0].card != Some(card) then [pending[0]] else if nullOnly then [] else [pending[0].(card := None)];
      assert ForgetCard(pending, card, nullOnly) == head + ForgetCard(pending[1..], card, nullOnly);
      assert pending == [pending[0]] + pending[1..];
    }
  }

  // ----- runs -----

  datatype Event =
    | SendEcm(request: Request)
    | GetReply(idx: byte)
    | CardGone(card: nat, nullOnly: bool)
    | Disconnect

  function Step(s: Indexes, e: Event): Indexes {
    match e
    case SendEcm(r) => Send(s, r)
    case GetReply(idx) => Reply(s, idx).1
    case CardGone(card, nullOnly) => s.(pending := ForgetCard(s.pending, card, nullOnly))
    case Disconnect => s.(pending := [])
  }

  function Run(s: Indexes, events: seq<Event>): Indexes
    decreases |events|
  {
    if events == [] then s else Run(Step(s, events[0]), events[1..])
  }

  function Sends(events: seq<Event>): nat
    decreases |events|
  {
    if events == [] then 0 else (if events[0].SendEcm? then 1 else 0) + Sends(events[1..])
  }

  // ----- one entry per index -----

  predicate Unique(pending: seq<Pending>) {
    forall i, j :: 0 <= i < j < |pending| ==> pending[i].sendIdx != pending[j].sendIdx
  }

  lemma SendKeepsUnique(s: Indexes, r: Request)
    requires Unique(s.pending)
    ensures Unique(Send(s, r).pending)
  {
    hide Find;
  }

  lemma {:induction false} ForgetIsPart(pending: seq<Pending>, card: nat, nullOnly: bool, k: nat)
    requires k < |ForgetCard(pending, card, nullOnly)|
    ensures exists i :: k <= i < |pending| && ForgetCard(pending, card, nullOnly)[k].sendIdx == pending[i].sendIdx
    decreases |pending|
  {
    var t := ForgetCard(pending[1..], card, nullOnly);
    var head := |ForgetCard(pending, card, nullOnly)| - |t|;
    if k >= head {
      ForgetIsPart(pending[1..], card, nullOnly, k - head);
      var i :| k - head <= i < |pending[1..]| && t[k - head].sendIdx == pending[1..][i].sendIdx;
      assert pending[i + 1] == pending[1..][i];
    } else {
      assert pending[0].sendIdx == ForgetCard(pending, card, nullOnly)[0].sendIdx;
    }
  }

  lemma {:induction false} ForgetKeepsUnique(pending: seq<Pending>, card: nat, nullOnly: bool)
    requires Unique(pending)
    ensures Unique(ForgetCard(pending, card, nullOnly))
    decreases |pending|
  {
    if pending != [] {
      ForgetKeepsUnique(pending[1..], card, nullOnly);
      var t := ForgetCard(pending[1..], card, nullOnly);
      forall k | 0 <= k < |t|
        ensures t[k].sendIdx != pending[0].sendIdx
      {
        ForgetIsPart(pending[1..], card, nullOnly, k);
        var i :| k <= i < |pending[1..]| && t[k].sendIdx == pending[1..][i].sendIdx;
        assert pending[i + 1] == pending[1..][i];
      }
    }
  }

  /** In every run no two entries have the same index. */
  lemma {:induction false} EveryRunUnique(s: Indexes, events: seq<Event>)
    requires Unique(s.pending)
    ensures Unique(Run(s, events).pending)
    decreases |events|
  {
    hide Find, ForgetCard;
    if events != [] {
      if events[0].SendEcm? {
        SendKeepsUnique(s, events[0].request);
      } else if events[0].CardGone? {
        ForgetKeepsUnique(s.pending, events[0].card, events[0].nullOnly);
      }
      EveryRunUnique(Step(s, events[0]), events[1..]);
    }
  }

  // ----- how long an index stays with its request -----

  /** The counter after n further requests. */
  function Later(counter: byte, n: nat): byte
    decreases n
  {
    if n == 0 then counter else NextIdx(Later(counter, n - 1))
  }

  lemma {:induction false} LaterIs(counter: byte, n: nat)
    requires counter > 0
    ensures Later(counter, n) as int == 1 + (counter - 1 + n) % 255
  {
    if n > 0 {
      LaterIs(counter, n - 1);
    } else {
      SmallMod(counter - 1);
    }
  }

  lemma SmallMod(x: nat)
    requires x < 255
    ensures x % 255 == x
  {
  }

  /** The indexes go round in 255 steps. */
  lemma IndexReusedIff(idx: byte, n: nat)
    requires idx > 0
    ensures Later(idx, n) == idx <==> n % 255 == 0
  {
    hide Later;
    LaterIs(idx, n);
  }

  // ----- what a lookup finds -----

  lemma SendLookup(s: Indexes, r: Request, idx: byte)
    ensures Lookup(Send(s, r).pending, idx) == if idx == NextIdx(s.counter) then Some(EntryFor(idx, r)) else Lookup(s.pending, idx)
  {
    hide Find;
    var t := Send(s, r).pending;
    var i, k, m := Find(s.pending, NextIdx(s.counter)), Find(s.pending, idx), Find(t, idx);
    assert i < |t| && t[i] == EntryFor(NextIdx(s.counter), r);
    assert forall j :: 0 <= j < |s.pending| && j != i ==> t[j] == s.pending[j];
    assert m < |t| ==> t[m].sendIdx == idx;
  }

  lemma ReplyLookup(s: Indexes, taken: byte, idx: byte)
    requires Unique(s.pending)
    ensures Lookup(Reply(s, taken).1.pending, idx) == if idx == taken then None else Lookup(s.pending, idx)
  {
    hide Find;
    var t := Reply(s, taken).1.pending;
    var i, k, m := Find(s.pending, taken), Find(s.pending, idx), Find(t, idx);
    if i < |s.pending| {
      assert forall j :: 0 <= j < |t| ==> t[j] == s.pending[if j < i then j else j + 1];
      if idx != taken && k < |s.pending| {
        assert t[if k < i then k else k - 1] == s.pending[k];
      }
    }
  }

  /** Resolving to a request, perhaps without its card. */
  predicate Resolves(e: Option<Pending>, r: Request) {
    e.Some? ==> e.value.ecmIdx == r.ecmIdx && e.value.sid == r.sid && (e.value.card == Some(r.card) || e.value.card == None)
  }

  lemma {:induction false} ForgetLookup(pending: seq<Pending>, card: nat, nullOnly: bool, idx: byte)
    requires Unique(pending)
    ensures
      var e := Lookup(ForgetCard(pending, card, nullOnly), idx);
      e == None || e == Lookup(pending, idx) || (Lookup(pending, idx).Some? && e.value == Lookup(pending, idx).value.(card := None))
    decreases |pending|
  {
    hide Find;
    var t := ForgetCard(pending, card, nullOnly);
    var m := Find(t, idx);
    if m < |t| {
      ForgetSource(pending, card, nullOnly, m);
      var i :| 0 <= i < |pending| && (t[m] == pending[i] || t[m] == pending[i].(card := None));
      var k := Find(pending, idx);
      assert pending[i].sendIdx == idx;
      assert i == k;
    }
  }

  lemma {:induction false} ForgetSource(pending: seq<Pending>, card: nat, nullOnly: bool, k: nat)
    requires k < |ForgetCard(pending, card, nullOnly)|
    ensures
      var e := ForgetCard(pending, card, nullOnly)[k];
      exists i :: 0 <= i < |pending| && (e == pending[i] || e == pending[i].(card := None))
    decreases |pending|
  {
    var t := ForgetCard(pending[1..], card, nullOnly);
    var head := |ForgetCard(pending, card, nullOnly)| - |t|;
    if k >= head {
      ForgetSource(pending[1..], card, nullOnly, k - head);
      var i :| 0 <= i < |pending[1..]| && (t[k - head] == pending[1..][i] || t[k - head] == pending[1..][i].(card := None));
      assert pending[i + 1] == pending[1..][i];
    } else {
      assert ForgetCard(pending, card, nullOnly)[0] == pending[0] || ForgetCard(pending, card, nullOnly)[0] == pending[0].(card := None);
    }
  }

  // ----- attribution -----

  /** While the index is not reused, it finds the request or nothing. */
  lemma {:induction false} StaysResolved(s: Indexes, events: seq<Event>, idx: byte, r: Request, age: nat)
    requires Unique(s.pending) && idx > 0 && s.counter == Later(idx, age) && age + Sends(events) <= 254
    requires Resolves(Lookup(s.pending, idx), r)
    ensures Resolves(Lookup(Run(s, events).pending, idx), r)
    decreases |events|
  {
    hide Later, Lookup, Find, ForgetCard, Reply, Send;
    if events != [] {
      var t := Step(s, events[0]);
      EveryRunUnique(s, [events[0]]);
      assert Run(s, [events[0]]) == Run(t, []) == t;
      StepResolves(s, events[0], idx, r, age);
      StaysResolved(t, events[1..], idx, r, age + if events[0].SendEcm? then 1 else 0);
    }
  }

  lemma StepResolves(s: Indexes, e: Event, idx: byte, r: Request, age: nat)
    requires Unique(s.pending) && idx > 0 && s.counter == Later(idx, age)
    requires e.SendEcm? ==> age < 254
    requires Resolves(Lookup(s.pending, idx), r)
    ensures Resolves(Lookup(Step(s, e).pending, idx), r)
    ensures Step(s, e).counter == Later(idx, age + if e.SendEcm? then 1 else 0)
  {
    hide Lookup, Find, ForgetCard, Reply;
    match e {
      case SendEcm(q) =>
        SendLookup(s, q, idx);
        IndexReusedIff(idx, age + 1);
      case GetReply(taken) =>
        ReplyLookup(s, taken, idx);
        ReplyCounter(s, taken);
      case CardGone(card, nullOnly) =>
        ForgetLookup(s.pending, card, nullOnly, idx);
      case Disconnect =>
        NothingFound(idx);
    }
  }

  lemma ReplyCounter(s: Indexes, idx: byte)
    ensures Reply(s, idx).1.counter == s.counter
  {
  }

  lemma NothingFound(idx: byte)
    ensures Lookup([], idx) == None
  {
  }

  /** If at most 254 further requests were sent after r, a reply with r's index resolves to r
      or to nothing, whatever replies, card changes and disconnects there were. */
  lemma ReplyAttributed(s: Indexes, r: Request, events: seq<Event>)
    requires Unique(s.pending) && Sends(events) <= 254
    ensures
      var sent := Send(s, r);
      var found := Reply(Run(sent, events), sent.counter).0;
      found == None || found == Some(Pending(sent.counter, r.ecmIdx, Some(r.card), r.sid)) || found == Some(Pending(sent.counter, r.ecmIdx, None, r.sid))
  {
    hide Find, Run, Sends;
    var sent := Send(s, r);
    SendKeepsUnique(s, r);
    SendLookup(s, r, sent.counter);
    assert Later(sent.counter, 0) == sent.counter;
    StaysResolved(sent, events, sent.counter, r, 0);
  }

  /** n more requests and nothing else. */
  function Flood(q: Request, n: nat): seq<Event> {
    if n == 0 then [] else [SendEcm(q)] + Flood(q, n - 1)
  }

  lemma {:induction false} FloodSends(q: Request, n: nat)
    ensures Sends(Flood(q, n)) == n
  {
    if n > 0 {
      FloodSends(q, n - 1);
      assert Flood(q, n)[1..] == Flood(q, n - 1);
    }
  }

  lemma {:induction false} FloodTakesOver(s: Indexes, q: Request, n: nat, idx: byte, age: nat)
    requires idx > 0 && s.counter == Later(idx, age)
    requires age + n >= 255 && (age >= 255 ==> Lookup(s.pending, idx) == Some(EntryFor(idx, q)))
    ensures Lookup(Run(s, Flood(q, n)).pending, idx) == Some(EntryFor(idx, q))
    decreases n
  {
    hide Find, Lookup;
    if n > 0 {
      var events := Flood(q, n);
      assert events[1..] == Flood(q, n - 1);
      SendLookup(s, q, idx);
      IndexReusedIff(idx, age + 1);
      FloodTakesOver(Send(s, q), q, n - 1, idx, age + 1);
    }
  }

  /** Replies are attributed rightly after k further requests exactly if k is at most 254. */
  ghost predicate AttributedAfter(k: nat) {
    forall s: Indexes, r: Request, events: seq<Event> ::
      Unique(s.pending) && Sends(events) == k ==> Resolves(Reply(Run(Send(s, r), events), Send(s, r).counter).0, r)
  }

  lemma AttributedIff(k: nat)
    ensures AttributedAfter(k) <==> k <= 254
  {
    hide Find, Run, Sends, Flood, Later, Send, Reply, Lookup;
    if k <= 254 {
      forall s: Indexes, r: Request, events: seq<Event> | Unique(s.pending) && Sends(events) == k
        ensures Resolves(Reply(Run(Send(s, r), events), Send(s, r).counter).0, r)
      {
        ReplyAttributed(s, r, events);
      }
    } else {
      TooManyRequests(k);
    }
  }

  /** 255 further requests, and the index finds the last of them. */
  lemma {:induction false} TooManyRequests(k: nat)
    requires k >= 255
    ensures
      var s, r, q := Indexes(0, []), Request(1, 0, Sid(0, 0, 0)), Request(2, 0, Sid(0, 0, 0));
      && Unique(s.pending) && Sends(Flood(q, k)) == k
      && !Resolves(Reply(Run(Send(s, r), Flood(q, k)), Send(s, r).counter).0, r)
  {
    hide Find, Run, Flood, Sends;
    var s, r, q := Indexes(0, []), Request(1, 0, Sid(0, 0, 0)), Request(2, 0, Sid(0, 0, 0));
    FloodSends(q, k);
    var sent := Send(s, r);
    assert Later(sent.counter, 0) == sent.counter;
    FloodTakesOver(sent, q, k, sent.counter, 0);
  }

  // ----- as the program runs it -----

  /** The reader's connection. */
  class Connection {
    var serverEcmIdx: nat
    var extendedEcmIdx: seq<Pending>

    predicate Valid() reads this { serverEcmIdx < 256 && Unique(extendedEcmIdx) }

    function State(): Indexes
      reads this
      requires Valid()
    {
      Indexes(serverEcmIdx, extendedEcmIdx)
    }

    constructor ()
      ensures Valid() && State() == Indexes(0, [])
    {
      serverEcmIdx, extendedEcmIdx := 0, [];
    }

    /** get_extended_ecm_idx: the entry's position, or the length. */
    method GetExtendedEcmIdx(sendIdx: byte) returns (i: nat)
      ensures i == Find(extendedEcmIdx, sendIdx)
    {
      hide Find;
      i := 0;
      while i < |extendedEcmIdx|
        invariant 0 <= i <= |extendedEcmIdx|
        invariant forall j :: 0 <= j < i ==> extendedEcmIdx[j].sendIdx != sendIdx
      {
        if extendedEcmIdx[i].sendIdx == sendIdx {
          return;
        }
        i := i + 1;
      }
    }

    method SendEcmIdx(r: Request) returns (sendIdx: byte)
      requires Valid()
      modifies this
      ensures Valid() && State() == Send(old(State()), r) && sendIdx == State().counter
    {
      hide Find;
      SendKeepsUnique(State(), r);
      serverEcmIdx := serverEcmIdx + 1;
      if serverEcmIdx >= 256 {
        serverEcmIdx := 1;
      }
      sendIdx := serverEcmIdx;
      var i := GetExtendedEcmIdx(sendIdx);
      if i < |extendedEcmIdx| {
        extendedEcmIdx := extendedEcmIdx[i := extendedEcmIdx[i].(ecmIdx := r.ecmIdx, card := Some(r.card), sid := r.sid)];
      } else {
        extendedEcmIdx := extendedEcmIdx + [Pending(sendIdx, r.ecmIdx, Some(r.card), r.sid)];
      }
    }

    method TakeReply(flag: byte) returns (entry: Option<Pending>)
      requires Valid()
      modifies this
      ensures Valid() && (entry, State()) == Reply(old(State()), flag)
    {
      hide Find;
      var i := GetExtendedEcmIdx(flag);
      if i == |extendedEcmIdx| {
        return None;
      }
      entry := Some(extendedEcmIdx[i]);
      extendedEcmIdx := extendedEcmIdx[..i] + extendedEcmIdx[i + 1..];
    }

    /** free_extended_ecm_idx_by_card. */
    method FreeByCard(card: nat, nullOnly: bool)
      requires Valid()
      modifies this
      ensures Valid() && State() == old(State()).(pending := ForgetCard(old(extendedEcmIdx), card, nullOnly))
    {
      hide ForgetCard;
      ForgetKeepsUnique(extendedEcmIdx, card, nullOnly);
      ghost var was := extendedEcmIdx;
      var i := 0;
      while i < |extendedEcmIdx|
        invariant 0 <= i <= |extendedEcmIdx| && serverEcmIdx == old(serverEcmIdx)
        invariant extendedEcmIdx[..i] + ForgetCard(extendedEcmIdx[i..], card, nullOnly) == ForgetCard(was, card, nullOnly)
        decreases |extendedEcmIdx| - i
      {
        ForgetHead(extendedEcmIdx, i, card, nullOnly);
        if extendedEcmIdx[i].card == Some(card) {
          if nullOnly {
            extendedEcmIdx := extendedEcmIdx[..i] + extendedEcmIdx[i + 1..];
          } else {
            extendedEcmIdx := extendedEcmIdx[i := extendedEcmIdx[i].(card := None)];
            i := i + 1;
          }
        } else {
          i := i + 1;
        }
      }
      assert extendedEcmIdx[i..] == [] && extendedEcmIdx[..i] + [] == extendedEcmIdx;
    }

    /** free_extended_ecm_idx. */
    method FreeAll()
      requires Valid()
      modifies this
      ensures Valid() && State() == old(State()).(pending := [])
    {
      extendedEcmIdx := [];
    }
  }

  lemma ForgetHead(pending: seq<Pending>, i: nat, card: nat, nullOnly: bool)
    requires i < |pending|
    ensures ForgetCard(pending[i..], card, nullOnly)
      == (if pending[i].card != Some(card) then [pending[i]] else if nullOnly then [] else [pending[i].(card := None)])
         + ForgetCard(pending[i + 1..], card, nullOnly)
  {
    assert pending[i..][1..] == pending[i + 1..];
  }
}
