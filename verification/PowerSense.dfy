/** The battery-sense debouncer, against the whole history of its samples. */
module PowerSense {

  datatype Sense = UnknownSense | UsbArtifact | BatteryPresent | NoBattery

  const WRAP: nat := 0x1_0000_0000

  /** instantaneous_power_state; a reading is never unknown, and the gap below the artifact voltage
      reads as no battery. */
  function Instantaneous(volts: real): (s: Sense)
    ensures s != UnknownSense
    ensures s == UsbArtifact <==> 4.24 <= volts
    ensures s == NoBattery <==> volts < 3.20 || 4.18 < volts < 4.24
  {
    if volts >= 4.24 then UsbArtifact
    else if 3.20 <= volts <= 4.18 then BatteryPresent
    else NoBattery
  }

  function Threshold(s: Sense): nat {
    match s
    case UsbArtifact => 1
    case BatteryPresent => 12
    case _ => 6
  }

  /** How many of the latest samples in a row are `s`. */
  function TrailingRun(history: seq<Sense>, s: Sense): (n: nat)
    ensures n <= |history|
    ensures forall k :: |history| - n <= k < |history| ==> history[k] == s
    ensures n < |history| ==> history[|history| - n - 1] != s
  {
    if history == [] || history[|history| - 1] != s then 0 else 1 + TrailingRun(history[..|history| - 1], s)
  }

  /** The sample numbered `n` completes or prolongs a run of its class that is long enough. */
  predicate Confirms(history: seq<Sense>, n: nat) {
    0 < n <= |history| && TrailingRun(history[..n], history[n - 1]) >= Threshold(history[n - 1])
  }

  /** `n` is the last sample that confirmed its class. */
  ghost predicate LastConfirmed(history: seq<Sense>, n: nat) {
    0 < n <= |history| && Confirms(history, n) && forall m: nat :: n < m <= |history| ==> !Confirms(history, m)
  }

  /** The class of the most recent run that reached its threshold, else unknown. */
  ghost predicate IsStable(history: seq<Sense>, s: Sense) {
    || (s == UnknownSense && forall n: nat :: n <= |history| ==> !Confirms(history, n))
    || exists n: nat :: LastConfirmed(history, n) && s == history[n - 1]
  }

  lemma ConfirmsInit(history: seq<Sense>, s: Sense, n: nat)
    requires n <= |history|
    ensures Confirms(history + [s], n) <==> Confirms(history, n)
  {
    assert (history + [s])[..n] == history[..n];
  }

  /** One more sample changes the stable class only by completing a run: the USB artefact at once, a battery
      by 12 samples in a row, none by 6. */
  lemma StableStep(history: seq<Sense>, before: Sense, s: Sense)
    requires IsStable(history, before)
    ensures var needed := if s == UsbArtifact then 1 else if s == BatteryPresent then 12 else 6;
      IsStable(history + [s], if TrailingRun(history + [s], s) >= needed then s else before)
  {
    hide Confirms;
    var now := history + [s];
    var last := |now|;
    assert Confirms(now, last) <==> TrailingRun(now, s) >= Threshold(s) by {
      assert now[..last] == now && now[last - 1] == s;
      LastConfirms(now);
    }
    forall n: nat | n <= |history| ensures Confirms(now, n) <==> Confirms(history, n) {
      ConfirmsInit(history, s, n);
    }
    if Confirms(now, last) {
      assert LastConfirmed(now, last) && now[last - 1] == s;
    } else if n: nat :| LastConfirmed(history, n) && before == history[n - 1] {
      assert LastConfirmed(now, n) && now[n - 1] == before;
    }
  }

  lemma LastConfirms(history: seq<Sense>)
    requires history != []
    ensures var last := history[|history| - 1];
      Confirms(history, |history|) <==> TrailingRun(history, last) >= Threshold(last)
  {
    assert history[..|history|] == history;
  }

  /** Every history has a stable class; the empty one knows none. */
  lemma {:induction false} StableExists(history: seq<Sense>) returns (s: Sense)
    ensures IsStable(history, s)
    ensures history == [] ==> s == UnknownSense
  {
    if history == [] {
      s := UnknownSense;
    } else {
      var init, last := history[..|history| - 1], history[|history| - 1];
      var before := StableExists(init);
      StableStep(init, before, last);
      assert history == init + [last];
      s := if TrailingRun(history, last) >= Threshold(last) then last else before;
    }
  }

  lemma StableIsUnique(history: seq<Sense>, s: Sense, t: Sense)
    requires IsStable(history, s) && IsStable(history, t)
    ensures s == t
  {
    hide Confirms;
    if n: nat :| LastConfirmed(history, n) && s == history[n - 1] {
      assert Confirms(history, n);
      var m: nat :| LastConfirmed(history, m) && t == history[m - 1];
      assert Confirms(history, m);
    }
  }

  ghost predicate AllAre(samples: seq<Sense>, s: Sense) {
    forall k :: 0 <= k < |samples| ==> samples[k] == s
  }

  ghost predicate RunEndsAt(history: seq<Sense>, s: Sense, n: nat) {
    Threshold(s) <= n <= |history| && AllAre(history[n - Threshold(s)..n], s)
  }

  /** A reported class that is not unknown rests on that many samples of it in a row. */
  lemma StableClassHadARun(history: seq<Sense>, s: Sense)
    requires IsStable(history, s) && s != UnknownSense
    ensures exists n: nat :: RunEndsAt(history, s, n)
  {
    var n: nat :| LastConfirmed(history, n) && s == history[n - 1];
    assert TrailingRun(history[..n], s) >= Threshold(s);
    assert forall k :: n - Threshold(s) <= k < n ==> history[..n][k] == history[k];
    assert RunEndsAt(history, s, n);
  }

  class PowerDebouncer {
    var usbArtifactCount: nat
    var batteryPresentCount: nat
    var noBatteryCount: nat
    var stable: Sense
    ghost var history: seq<Sense>

    /** Each counter is the trailing run of its class, in 32 bits; the state is the stable class. */
    ghost predicate Valid()
      reads this
    {
      && usbArtifactCount == TrailingRun(history, UsbArtifact) % WRAP
      && batteryPresentCount == TrailingRun(history, BatteryPresent) % WRAP
      && noBatteryCount == TrailingRun(history, NoBattery) % WRAP
      && IsStable(history, stable)
    }

    constructor ()
      ensures Valid() && history == [] && stable == UnknownSense
    {
      usbArtifactCount, batteryPresentCount, noBatteryCount := 0, 0, 0;
      stable := UnknownSense;
      history := [];
    }

    /** resolve_stable_power_state. A wrapped counter is harmless: by then the class is confirmed. */
    method Resolve(sample: Sense) returns (result: Sense)
      requires Valid() && sample != UnknownSense
      modifies this
      ensures Valid() && history == old(history) + [sample]
      ensures result == stable && IsStable(history, result)
    {
      hide IsStable, TrailingRun, Incremented;
      CountersStep(history, sample);
      StableByCounter(history, stable, sample);
      history := history + [sample];
      if sample == UsbArtifact {
        usbArtifactCount := Incremented(usbArtifactCount);
        batteryPresentCount := 0;
        noBatteryCount := 0;
        if usbArtifactCount >= 1 {
          stable := UsbArtifact;
        }
        return stable;
      }
      if sample == BatteryPresent {
        batteryPresentCount := Incremented(batteryPresentCount);
        usbArtifactCount := 0;
        noBatteryCount := 0;
        if batteryPresentCount >= 12 {
          stable := BatteryPresent;
        }
        return stable;
      }
      noBatteryCount := Incremented(noBatteryCount);
      usbArtifactCount := 0;
      batteryPresentCount := 0;
      if noBatteryCount >= 6 {
        stable := NoBattery;
      }
      return stable;
    }
  }

  /** One more, in 32 bits. */
  function Incremented(count: nat): nat {
    (count + 1) % WRAP
  }

  lemma CounterStep(run: nat, threshold: nat)
    requires 0 < threshold <= 12
    ensures (run + 1) % WRAP == Incremented(run % WRAP)
    ensures (run + 1) % WRAP >= threshold ==> run + 1 >= threshold
    ensures run + 1 >= threshold ==> (run + 1) % WRAP >= threshold || run >= threshold
  {
  }

  lemma RunStep(history: seq<Sense>, s: Sense)
    ensures TrailingRun(history + [s], s) == TrailingRun(history, s) + 1
    ensures forall t :: t != s ==> TrailingRun(history + [s], t) == 0
  {
    assert (history + [s])[..|history|] == history;
  }

  /** A sample increments the counter of its class and clears the others. */
  lemma CountersStep(history: seq<Sense>, s: Sense)
    ensures TrailingRun(history + [s], s) % WRAP == Incremented(TrailingRun(history, s) % WRAP)
    ensures forall t :: t != s ==> TrailingRun(history + [s], t) % WRAP == 0
  {
    hide TrailingRun, Incremented;
    RunStep(history, s);
    CounterStep(TrailingRun(history, s), 1);
  }

  /** The wrapped counter decides as the run does. */
  lemma StableByCounter(history: seq<Sense>, before: Sense, s: Sense)
    requires IsStable(history, before)
    ensures IsStable(history + [s], if Incremented(TrailingRun(history, s) % WRAP) >= Threshold(s) then s else before)
  {
    hide TrailingRun, IsStable, Incremented;
    StableStep(history, before, s);
    LongRunIsStable(history, before, s);
    RunStep(history, s);
    CounterStep(TrailingRun(history, s), Threshold(s));
  }

  /** A run that was long enough one sample ago has already made its class the stable one. */
  lemma LongRunIsStable(history: seq<Sense>, before: Sense, s: Sense)
    requires IsStable(history, before)
    ensures history != [] && TrailingRun(history, s) >= Threshold(s) ==> before == s
  {
    if history != [] && TrailingRun(history, s) >= Threshold(s) {
      assert history[|history| - 1] == s;
      LastConfirms(history);
      assert LastConfirmed(history, |history|);
      StableIsUnique(history, before, s);
    }
  }

  /** Of the three runs at most one is under way. */
  lemma AtMostOneRun(history: seq<Sense>, s: Sense, t: Sense)
    requires s != t
    ensures TrailingRun(history, s) == 0 || TrailingRun(history, t) == 0
  {
  }
}
