/** The pool of printer clients: an array of slots, each reconfigured in place. */
module ClientPool {
  import opened ProfileStore
  import opened PoolSync

  class PrinterClientPool {
    const slots: array<Slot>
    ghost var calls: seq<Call>

    ghost predicate Valid()
      reads this, slots
    {
      PoolOk(View())
    }

    ghost function View(): Pool
      reads this, slots
    {
      Pool(slots[..], calls)
    }

    constructor ()
      ensures Valid() && fresh(slots) && calls == []
      ensures forall i :: 0 <= i < slots.Length ==> slots[i] == Slot(false, IDLE, false)
    {
      slots := new Slot[MAX_PROFILES](_ => Slot(false, IDLE, false));
      calls := [];
    }

    /** slot_for: an index out of range means slot 0. */
    static function SlotFor(index: nat): (slot: nat)
      ensures slot == index || (index >= 16 && slot == 0)
      ensures slot < 16
    {
      if index >= MAX_PROFILES then 0 else index
    }

    /** ensure_started */
    method EnsureStarted(index: nat, p: Profile)
      requires Valid()
      modifies this, slots
      ensures Valid() && View() == Ensured(old(View()), SlotFor(index), ConnectionOf(p))
    {
      hide ConnectionOf;
      var i := SlotFor(index);
      assert SlotOk(View().slots[i]);
      ghost var before := slots[i];
      if !slots[i].hasClient {
        slots[i] := slots[i].(hasClient := true);
      }
      var desired := ConnectionOf(p);
      ghost var made: seq<Call> := [];
      if !slots[i].started || slots[i].active != desired {
        made := [Configure(i, desired)];
        slots[i] := slots[i].(active := desired);
      }
      if !slots[i].started {
        made := made + [Start(i)];
        slots[i] := slots[i].(started := true);
      }
      assert made == EnsureCalls(before, i, desired);
      calls := calls + made;
      assert slots[..] == old(slots[..])[i := Slot(true, desired, true)];
    }

    /** clear */
    method Clear(index: nat)
      requires Valid()
      modifies this, slots
      ensures Valid() && View() == Cleared(old(View()), SlotFor(index))
    {
      var i := SlotFor(index);
      if !slots[i].hasClient {
        return;
      }
      if slots[i].active != IDLE {
        calls := calls + [Configure(i, IDLE)];
        slots[i] := slots[i].(active := IDLE);
      }
    }

    /** sync_with_profiles */
    method SyncWithProfiles(profiles: seq<Listed>)
      requires Valid()
      modifies this, slots
      ensures Valid() && View() == Synced(old(View()), profiles)
    {
      hide Synced, HasLocalConfig, ConnectionOf, Ensured, Cleared;
      var present := new bool[MAX_PROFILES](_ => false);
      for n := 0 to |profiles|
        invariant Valid() && View() == SyncListed(old(View()), profiles[..n])
        invariant fresh(present)
        invariant forall i :: 0 <= i < MAX_PROFILES ==> present[i] == Present(profiles[..n], i)
      {
        var p := profiles[n];
        assert profiles[..n + 1][..n] == profiles[..n];
        PresentSnoc(profiles, n);
        if p.index >= MAX_PROFILES {
          continue;
        }
        present[p.index] := true;
        if HasLocalConfig(p.profile) {
          EnsureStarted(p.index, p.profile);
        } else {
          Clear(p.index);
        }
      }
      assert profiles[..|profiles|] == profiles;
      ghost var listed := View();
      for i := 0 to MAX_PROFILES
        invariant Valid() && View() == ClearAbsent(listed, profiles, i)
        invariant fresh(present)
        invariant forall j :: 0 <= j < MAX_PROFILES ==> present[j] == Present(profiles, j)
      {
        if !present[i] {
          Clear(i);
        }
      }
      SyncedIs(old(View()), profiles);
    }
  }

  lemma PresentSnoc(ls: seq<Listed>, n: nat)
    requires n < |ls|
    ensures forall i: nat :: Present(ls[..n + 1], i) <==> Present(ls[..n], i) || ls[n].index == i
  {
    forall i: nat ensures Present(ls[..n + 1], i) <==> Present(ls[..n], i) || ls[n].index == i {
      PresentInit(ls[..n + 1], i);
      assert ls[..n + 1][..n] == ls[..n];
    }
  }
}
