/** What synchronising the pool with a list of profiles does to every slot. */
module PoolSync {
  import opened ProfileStore

  datatype Connection = Connection(host: string, serial: string, access: string, username: string, port: nat)

  const IDLE := Connection("", "", "", "bblp", 8883)

  function ConnectionOf(p: Profile): Connection {
    Connection(p.host, p.serial, p.access, "bblp", 8883)
  }

  predicate HasLocalConfig(p: Profile) {
    p.host != "" && p.access != ""
  }

  /** A slot; `active` is what its client was last told, and means nothing without a client. */
  datatype Slot = Slot(hasClient: bool, active: Connection, started: bool)

  /** What the pool asks of its clients. */
  datatype Call = Configure(slot: nat, c: Connection) | Start(slot: nat)

  datatype Pool = Pool(slots: seq<Slot>, calls: seq<Call>)

  predicate SlotOk(s: Slot) {
    !s.hasClient ==> s.active == IDLE && !s.started
  }

  ghost predicate PoolOk(p: Pool) {
    |p.slots| == MAX_PROFILES && forall i :: 0 <= i < MAX_PROFILES ==> SlotOk(p.slots[i])
  }

  // ----- one slot

  function EnsureCalls(s: Slot, i: nat, c: Connection): seq<Call> {
    (if !s.started || s.active != c then [Configure(i, c)] else []) + if s.started then [] else [Start(i)]
  }

  function Ensured(p: Pool, i: nat, c: Connection): Pool
    requires i < |p.slots|
  {
    Pool(p.slots[i := Slot(true, c, true)], p.calls + EnsureCalls(p.slots[i], i, c))
  }

  function Cleared(p: Pool, i: nat): Pool
    requires i < |p.slots|
  {
    var s := p.slots[i];
    if s.hasClient && s.active != IDLE then
      Pool(p.slots[i := s.(active := IDLE)], p.calls + [Configure(i, IDLE)])
    else p
  }

  // ----- the two loops

  function SyncOne(p: Pool, l: Listed): Pool
    requires |p.slots| == MAX_PROFILES
  {
    if l.index >= MAX_PROFILES then p
    else if HasLocalConfig(l.profile) then Ensured(p, l.index, ConnectionOf(l.profile))
    else Cleared(p, l.index)
  }

  function SyncListed(p: Pool, ls: seq<Listed>): (q: Pool)
    requires |p.slots| == MAX_PROFILES
    ensures |q.slots| == MAX_PROFILES
  {
    if ls == [] then p else SyncOne(SyncListed(p, ls[..|ls| - 1]), ls[|ls| - 1])
  }

  predicate Present(ls: seq<Listed>, i: nat) {
    exists k :: 0 <= k < |ls| && ls[k].index == i
  }

  function ClearAbsent(p: Pool, ls: seq<Listed>, n: nat): (q: Pool)
    requires |p.slots| == MAX_PROFILES && n <= MAX_PROFILES
    ensures |q.slots| == MAX_PROFILES
  {
    if n == 0 then p
    else
      var q := ClearAbsent(p, ls, n - 1);
      if Present(ls, n - 1) then q else Cleared(q, n - 1)
  }

  function Synced(p: Pool, ls: seq<Listed>): (q: Pool)
    requires |p.slots| == MAX_PROFILES
    ensures |q.slots| == MAX_PROFILES
  {
    ClearAbsent(SyncListed(p, ls), ls, MAX_PROFILES)
  }

  // ----- what each slot should end up with

  function Wanted(p: Profile): Connection {
    if HasLocalConfig(p) then ConnectionOf(p) else IDLE
  }

  /** The wish of the last profile for this slot; nobody's slot is idle. */
  function Desired(ls: seq<Listed>, i: nat): Connection {
    if ls == [] then IDLE
    else if ls[|ls| - 1].index == i then Wanted(ls[|ls| - 1].profile)
    else Desired(ls[..|ls| - 1], i)
  }

  predicate LocalHere(l: Listed, i: nat) {
    l.index == i && HasLocalConfig(l.profile)
  }

  ghost predicate SomeLocal(ls: seq<Listed>, i: nat) {
    exists k :: 0 <= k < |ls| && LocalHere(ls[k], i)
  }

  lemma PresentInit(ls: seq<Listed>, i: nat)
    requires ls != []
    ensures Present(ls, i) <==> Present(ls[..|ls| - 1], i) || ls[|ls| - 1].index == i
    ensures SomeLocal(ls, i) <==> SomeLocal(ls[..|ls| - 1], i) || LocalHere(ls[|ls| - 1], i)
  {
    var init := ls[..|ls| - 1];
    assert forall k :: 0 <= k < |init| ==> init[k] == ls[k];
    if Present(init, i) {
      var k :| 0 <= k < |init| && init[k].index == i;
      assert ls[k].index == i;
    }
    if SomeLocal(init, i) {
      var k :| 0 <= k < |init| && LocalHere(init[k], i);
      assert LocalHere(ls[k], i);
    }
  }

  lemma {:induction false} SlotAfterList(p: Pool, ls: seq<Listed>, i: nat)
    requires PoolOk(p) && i < MAX_PROFILES
    ensures var s := SyncListed(p, ls).slots[i];
      && SlotOk(s)
      && s.active == (if Present(ls, i) then Desired(ls, i) else p.slots[i].active)
      && (s.started <==> p.slots[i].started || SomeLocal(ls, i))
  {
    hide HasLocalConfig, ConnectionOf;
    if ls != [] {
      SlotAfterList(p, ls[..|ls| - 1], i);
      PresentInit(ls, i);
    }
  }

  lemma {:induction false} SlotAfterClearing(p: Pool, ls: seq<Listed>, n: nat, i: nat)
    requires |p.slots| == MAX_PROFILES && n <= MAX_PROFILES && i < MAX_PROFILES && SlotOk(p.slots[i])
    ensures ClearAbsent(p, ls, n).slots[i] ==
            if i < n && !Present(ls, i) then p.slots[i].(active := IDLE) else p.slots[i]
  {
    hide Present;
    if n > 0 {
      SlotAfterClearing(p, ls, n - 1, i);
    }
  }

  lemma {:induction false} AbsentIsIdle(ls: seq<Listed>, i: nat)
    requires !Present(ls, i)
    ensures Desired(ls, i) == IDLE && !SomeLocal(ls, i)
  {
    hide Present, SomeLocal, Wanted;
    if ls != [] {
      PresentInit(ls, i);
      AbsentIsIdle(ls[..|ls| - 1], i);
    } else {
      NobodyHere(i);
    }
  }

  lemma NobodyHere(i: nat)
    ensures !SomeLocal([], i)
  {
  }

  /** After a sync every slot is told what its last profile wants, or nothing; and whoever has a local
      configuration is running. */
  lemma SyncGivesEveryoneTheirConnection(p: Pool, ls: seq<Listed>, i: nat)
    requires PoolOk(p) && i < MAX_PROFILES
    ensures var s := Synced(p, ls).slots[i];
      && s.active == Desired(ls, i)
      && (s.started <==> p.slots[i].started || SomeLocal(ls, i))
      && SlotOk(s)
  {
    hide Present, SomeLocal, SyncListed, ClearAbsent, Desired;
    SlotAfterList(p, ls, i);
    SlotAfterClearing(SyncListed(p, ls), ls, MAX_PROFILES, i);
    if !Present(ls, i) {
      AbsentIsIdle(ls, i);
    }
  }

  lemma SyncKeepsPoolOk(p: Pool, ls: seq<Listed>)
    requires PoolOk(p)
    ensures PoolOk(Synced(p, ls))
  {
    hide Synced, SlotOk;
    forall i | 0 <= i < MAX_PROFILES ensures SlotOk(Synced(p, ls).slots[i]) {
      SyncGivesEveryoneTheirConnection(p, ls, i);
    }
  }

  // ----- syncing again

  ghost predicate Distinct(ls: seq<Listed>) {
    forall j, k :: 0 <= j < k < |ls| ==> ls[j].index != ls[k].index
  }

  /** Profiles for one slot want one connection. */
  ghost predicate Agree(ls: seq<Listed>) {
    forall j, k :: 0 <= j < k < |ls| && ls[j].index == ls[k].index && ls[k].index < MAX_PROFILES ==>
      Wanted(ls[j].profile) == Wanted(ls[k].profile)
  }

  predicate Settled(p: Pool, l: Listed)
    requires |p.slots| == MAX_PROFILES
  {
    l.index < MAX_PROFILES ==>
      && p.slots[l.index].active == Wanted(l.profile)
      && (HasLocalConfig(l.profile) ==> p.slots[l.index].started)
  }

  ghost predicate AllSettled(p: Pool, ls: seq<Listed>)
    requires |p.slots| == MAX_PROFILES
  {
    forall k :: 0 <= k < |ls| ==> Settled(p, ls[k])
  }

  lemma QuietStep(p: Pool, l: Listed)
    requires PoolOk(p)
    ensures Settled(p, l) <==> SyncOne(p, l).calls == p.calls
    ensures Settled(p, l) ==> SyncOne(p, l) == p
    ensures |SyncOne(p, l).calls| >= |p.calls|
  {
    if l.index < MAX_PROFILES {
      var s := p.slots[l.index];
      assert SlotOk(s);
      var calls := EnsureCalls(s, l.index, ConnectionOf(l.profile));
      if calls == [] {
        assert p.slots[l.index := s] == p.slots && p.calls + calls == p.calls;
      } else {
        assert |p.calls + calls| > |p.calls|;
      }
    }
  }

  lemma ListKeepsPoolOk(p: Pool, ls: seq<Listed>)
    requires PoolOk(p)
    ensures PoolOk(SyncListed(p, ls))
  {
    hide SyncListed, SlotOk, SomeLocal, Present;
    forall i | 0 <= i < MAX_PROFILES ensures SlotOk(SyncListed(p, ls).slots[i]) {
      SlotAfterList(p, ls, i);
    }
  }

  /** A list makes no call exactly when every profile finds its slot as it wants it. */
  lemma {:induction false} QuietList(p: Pool, ls: seq<Listed>)
    requires PoolOk(p)
    ensures |SyncListed(p, ls).calls| >= |p.calls|
    ensures AllSettled(p, ls) <==> |SyncListed(p, ls).calls| == |p.calls|
    ensures AllSettled(p, ls) ==> SyncListed(p, ls) == p
  {
    hide Settled, SyncOne, PoolOk;
    if ls != [] {
      var init, last := ls[..|ls| - 1], ls[|ls| - 1];
      QuietList(p, init);
      SizesAgree(p);
      ListKeepsPoolOk(p, init);
      QuietStep(SyncListed(p, init), last);
      assert forall k :: 0 <= k < |init| ==> init[k] == ls[k];
      if AllSettled(p, init) {
        CallsOnlyGrow(p, last);
        assert AllSettled(p, ls) <==> Settled(p, last);
      } else {
        assert !AllSettled(p, ls);
      }
    }
  }

  lemma SizesAgree(p: Pool)
    requires PoolOk(p)
    ensures |p.slots| == MAX_PROFILES
  {
  }

  lemma CallsOnlyGrow(p: Pool, l: Listed)
    requires PoolOk(p)
    ensures p.calls <= SyncOne(p, l).calls
  {
  }

  lemma {:induction false} QuietClearing(p: Pool, ls: seq<Listed>, n: nat)
    requires |p.slots| == MAX_PROFILES && n <= MAX_PROFILES
    requires forall i :: 0 <= i < n && !Present(ls, i) ==> p.slots[i].active == IDLE
    ensures ClearAbsent(p, ls, n) == p
  {
    hide Present;
    if n > 0 {
      QuietClearing(p, ls, n - 1);
    }
  }

  lemma {:induction false} DesiredByAgreement(ls: seq<Listed>, k: nat)
    requires k < |ls| && ls[k].index < MAX_PROFILES && Agree(ls)
    ensures Desired(ls, ls[k].index) == Wanted(ls[k].profile)
  {
    hide Wanted;
    var init := ls[..|ls| - 1];
    if k < |init| && ls[|ls| - 1].index != ls[k].index {
      assert forall j :: 0 <= j < |init| ==> init[j] == ls[j];
      DesiredByAgreement(init, k);
    }
  }

  /** Syncing again with the same list disturbs no session, exactly when profiles that share a slot
      want the same connection. */
  lemma SecondSyncIsQuiet(p: Pool, ls: seq<Listed>)
    requires PoolOk(p)
    ensures var once := Synced(p, ls);
      && (Agree(ls) ==> Synced(once, ls) == once)
      && (Agree(ls) <==> AllSettled(once, ls))
      && (!Agree(ls) ==> |SyncListed(once, ls).calls| > |once.calls|)
  {
    hide Synced, SyncListed, Settled, Wanted, Present, SomeLocal;
    var once := Synced(p, ls);
    SyncKeepsPoolOk(p, ls);
    if Agree(ls) {
      forall k | 0 <= k < |ls| ensures Settled(once, ls[k]) {
        SettledByAgreement(p, ls, k);
      }
    } else if AllSettled(once, ls) {
      forall j, k | 0 <= j < k < |ls| && ls[j].index == ls[k].index < MAX_PROFILES
        ensures Wanted(ls[j].profile) == Wanted(ls[k].profile)
      {
        SettledIsWanted(once, ls[j]);
        SettledIsWanted(once, ls[k]);
      }
      assert false;
    }
    QuietList(once, ls);
    if Agree(ls) {
      forall i | 0 <= i < MAX_PROFILES && !Present(ls, i) ensures once.slots[i].active == IDLE {
        SyncGivesEveryoneTheirConnection(p, ls, i);
        AbsentIsIdle(ls, i);
      }
      QuietClearing(once, ls, MAX_PROFILES);
      SyncedIs(once, ls);
    }
  }

  lemma SyncedIs(p: Pool, ls: seq<Listed>)
    requires |p.slots| == MAX_PROFILES
    ensures Synced(p, ls) == ClearAbsent(SyncListed(p, ls), ls, MAX_PROFILES)
  {
  }

  lemma SettledIsWanted(p: Pool, l: Listed)
    requires |p.slots| == MAX_PROFILES && Settled(p, l) && l.index < MAX_PROFILES
    ensures p.slots[l.index].active == Wanted(l.profile)
  {
  }

  lemma SettledByAgreement(p: Pool, ls: seq<Listed>, k: nat)
    requires PoolOk(p) && Agree(ls) && k < |ls|
    ensures Settled(Synced(p, ls), ls[k])
  {
    hide Synced, Wanted, HasLocalConfig, Desired;
    if ls[k].index < MAX_PROFILES {
      SyncGivesEveryoneTheirConnection(p, ls, ls[k].index);
      DesiredByAgreement(ls, k);
      if HasLocalConfig(ls[k].profile) {
        assert LocalHere(ls[k], ls[k].index);
      }
    }
  }

  lemma DistinctAgree(ls: seq<Listed>)
    requires Distinct(ls)
    ensures Agree(ls)
  {
  }

  // ----- what the clients are told

  /** The connection a client was told last. */
  function LastTold(calls: seq<Call>, i: nat): Connection {
    if calls == [] then Connection("", "", "", "bblp", 8883)
    else
      var last := calls[|calls| - 1];
      if last.Configure? && last.slot == i then last.c else LastTold(calls[..|calls| - 1], i)
  }

  /** A client has the connection it was told last, and runs exactly if it was started, which happens once
      and right after it was told a connection. */
  ghost predicate SlotTold(p: Pool, i: nat)
    requires |p.slots| == MAX_PROFILES && i < MAX_PROFILES
  {
    && p.slots[i].active == LastTold(p.calls, i)
    && (p.slots[i].started <==> Start(i) in p.calls)
    && (forall j, k :: 0 <= j < k < |p.calls| && p.calls[j] == Start(i) ==> p.calls[k] != Start(i))
    && (forall k :: 0 <= k < |p.calls| && p.calls[k] == Start(i) ==>
          k > 0 && p.calls[k - 1].Configure? && p.calls[k - 1].slot == i)
  }

  ghost predicate AllTold(p: Pool) {
    |p.slots| == MAX_PROFILES && forall i :: 0 <= i < MAX_PROFILES ==> SlotTold(p, i)
  }

  lemma LastToldSnoc(calls: seq<Call>, call: Call, i: nat)
    ensures LastTold(calls + [call], i) ==
            if call.Configure? && call.slot == i then call.c else LastTold(calls, i)
  {
    assert (calls + [call])[..|calls|] == calls;
  }

  lemma ConfiguredIsTold(p: Pool, n: nat, c: Connection)
    requires AllTold(p) && n < MAX_PROFILES
    ensures AllTold(Pool(p.slots[n := p.slots[n].(active := c)], p.calls + [Configure(n, c)]))
  {
    hide LastTold;
    var q := Pool(p.slots[n := p.slots[n].(active := c)], p.calls + [Configure(n, c)]);
    forall i | 0 <= i < MAX_PROFILES ensures SlotTold(q, i) {
      assert SlotTold(p, i);
      LastToldSnoc(p.calls, Configure(n, c), i);
    }
  }

  lemma StartedIsTold(p: Pool, n: nat)
    requires AllTold(p) && n < MAX_PROFILES && !p.slots[n].started
    requires p.calls != [] && var last := p.calls[|p.calls| - 1]; last.Configure? && last.slot == n
    ensures AllTold(Pool(p.slots[n := p.slots[n].(started := true)], p.calls + [Start(n)]))
  {
    hide LastTold;
    var q := Pool(p.slots[n := p.slots[n].(started := true)], p.calls + [Start(n)]);
    forall i | 0 <= i < MAX_PROFILES ensures SlotTold(q, i) {
      assert SlotTold(p, i);
      LastToldSnoc(p.calls, Start(n), i);
    }
  }

  lemma ClientIsTold(p: Pool, n: nat)
    requires AllTold(p) && n < MAX_PROFILES
    ensures AllTold(Pool(p.slots[n := p.slots[n].(hasClient := true)], p.calls))
  {
    hide LastTold;
    var q := Pool(p.slots[n := p.slots[n].(hasClient := true)], p.calls);
    forall i | 0 <= i < MAX_PROFILES ensures SlotTold(q, i) {
      assert SlotTold(p, i);
    }
  }

  lemma EnsuredIsTold(p: Pool, n: nat, c: Connection)
    requires AllTold(p) && n < MAX_PROFILES
    ensures AllTold(Ensured(p, n, c))
  {
    hide AllTold;
    SizeOfTold(p);
    ClientIsTold(p, n);
    var q := Pool(p.slots[n := p.slots[n].(hasClient := true)], p.calls);
    var s := p.slots[n];
    if !s.started || s.active != c {
      ConfiguredIsTold(q, n, c);
      var t := Pool(q.slots[n := q.slots[n].(active := c)], q.calls + [Configure(n, c)]);
      if !s.started {
        StartedIsTold(t, n);
        assert t.slots[n := t.slots[n].(started := true)] == Ensured(p, n, c).slots;
        assert t.calls + [Start(n)] == Ensured(p, n, c).calls;
      } else {
        assert t.slots == Ensured(p, n, c).slots && t.calls == Ensured(p, n, c).calls;
      }
    } else {
      assert q.slots == Ensured(p, n, c).slots && q.calls == Ensured(p, n, c).calls;
    }
  }

  lemma SizeOfTold(p: Pool)
    requires AllTold(p)
    ensures |p.slots| == MAX_PROFILES
  {
  }

  lemma ClearedIsTold(p: Pool, n: nat)
    requires AllTold(p) && n < MAX_PROFILES
    ensures AllTold(Cleared(p, n))
  {
    hide SlotTold;
    ConfiguredIsTold(p, n, IDLE);
  }

  lemma {:induction false} ListIsTold(p: Pool, ls: seq<Listed>)
    requires AllTold(p)
    ensures AllTold(SyncListed(p, ls))
  {
    hide AllTold, Ensured, Cleared;
    SizeOfTold(p);
    if ls != [] {
      var init, l := ls[..|ls| - 1], ls[|ls| - 1];
      ListIsTold(p, init);
      if l.index < MAX_PROFILES {
        EnsuredIsTold(SyncListed(p, init), l.index, ConnectionOf(l.profile));
        ClearedIsTold(SyncListed(p, init), l.index);
      }
    }
  }

  lemma {:induction false} ClearingIsTold(p: Pool, ls: seq<Listed>, n: nat)
    requires AllTold(p) && n <= MAX_PROFILES
    ensures |p.slots| == MAX_PROFILES && AllTold(ClearAbsent(p, ls, n))
  {
    hide AllTold, Cleared, Present;
    SizeOfTold(p);
    if n > 0 {
      ClearingIsTold(p, ls, n - 1);
      ClearedIsTold(ClearAbsent(p, ls, n - 1), n - 1);
    }
  }

  /** Over any number of syncs the pool's record of its clients is what they were told: nobody keeps an old
      connection unnoticed, and nobody is started twice or before it has one. */
  lemma SyncTellsEveryone(p: Pool, ls: seq<Listed>)
    requires AllTold(p)
    ensures |p.slots| == MAX_PROFILES && AllTold(Synced(p, ls))
  {
    hide AllTold, SyncListed, ClearAbsent;
    SizeOfTold(p);
    ListIsTold(p, ls);
    ClearingIsTold(SyncListed(p, ls), ls, MAX_PROFILES);
  }

  /** Before anyone is told anything. */
  lemma NobodyIsTold(p: Pool)
    requires |p.slots| == MAX_PROFILES && p.calls == []
    requires forall i :: 0 <= i < MAX_PROFILES ==> p.slots[i] == Slot(false, IDLE, false)
    ensures AllTold(p) && PoolOk(p)
  {
    assert LastTold([], 0) == IDLE;
  }

  /** A profile's connection is its own host, serial and access code, for the fixed user and port, and it is
      a local one if it has a host and an access code. */
  lemma WantedConnection(p: Profile)
    ensures Wanted(p) == if p.host != "" && p.access != "" then Connection(p.host, p.serial, p.access, "bblp", 8883)
                         else Connection("", "", "", "bblp", 8883)
  {
  }
}
