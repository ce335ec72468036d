/** What status and stage texts mean: which words each classifier listens to, longer words that only repeat
    a shorter one left out, and what a status text is called. */
module StatusWords {
  import opened Text
  import B = BambuStatus
  import opened BambuStatus
  import opened PrinterState
  import opened UiState

  lemma SliceOfSlice(s: string, i: nat, n: nat, at: nat, m: nat)
    requires i + n <= |s| && at + m <= n
    ensures s[i..i + n][at..at + m] == s[i + at..i + at + m]
  {
    var a, b := s[i..i + n][at..at + m], s[i + at..i + at + m];
    assert |a| == |b| && forall k :: 0 <= k < m ==> a[k] == b[k];
  }

  /** A text that holds a word holds every part of it. */
  lemma HoldsPart(s: string, word: string, part: string, at: nat)
    requires OccursAt(word, part, at)
    ensures Contains(s, word) ==> Contains(s, part)
  {
    if Contains(s, word) {
      var i: nat :| i <= |s| && OccursAt(s, word, i);
      SliceOfSlice(s, i, |word|, at, |part|);
      assert OccursAt(s, part, i + at);
    }
  }

  // ----- status tokens

  lemma {:induction false} NormalizeSplits(a: string, b: string)
    ensures Normalize(a + b) == Normalize(a) + Normalize(b)
  {
    if a == [] {
      assert a + b == b;
    } else {
      assert (a + b)[1..] == a[1..] + b;
      NormalizeSplits(a[1..], b);
    }
  }

  /** Letters in either case are read as capitals, digits as they are, and all else is skipped. */
  lemma NormalizeOne(c: char)
    ensures Normalize([c]) ==
            if 'a' <= c <= 'z' then [(c as int - 'a' as int + 'A' as int) as char]
            else if 'A' <= c <= 'Z' || '0' <= c <= '9' then [c] else []
  {
    assert [c][1..] == [];
  }

  lemma LowerOne(s: string, k: nat)
    requires k < |s|
    ensures |Lower(s)| == |s|
    ensures Lower(s)[k] == if 'A' <= s[k] <= 'Z' then (s[k] as int - 'A' as int + 'a' as int) as char else s[k]
  {
  }

  lemma StatusClasses(status: string)
    ensures var n := Normalize(status);
      && (IsFailed(status) <==> Contains(n, "FAIL") || Contains(n, "ERROR") || Contains(n, "CANCEL"))
      && (IsFinished(status) <==>
            Contains(n, "DONE") || Contains(n, "SUCCESS") || Contains(n, "COMPLETE") || Contains(n, "FINISH"))
      && (IsPaused(status) <==> Contains(n, "PAUSE"))
      && (IsPreparing(status) <==>
            n == "INIT" || n == "SLICING" || Contains(n, "PREPARE") || Contains(n, "PREPARING")
            || Contains(n, "STARTING") || Contains(n, "HEATING") || Contains(n, "DOWNLOAD"))
      && (IsPrinting(status) <==> Contains(n, "RUNNING") || Contains(n, "PRINTING") || Contains(n, "PROCESSING"))
  {
    assert OccursAt("COMPLETED", "COMPLETE", 0) by { assert "COMPLETED"[0..8] == "COMPLETE"; }
    HoldsPart(Normalize(status), "COMPLETED", "COMPLETE", 0);
    hide Contains, OccursAt, Normalize;
  }

  lemma SameClasses(status: string)
    ensures var n := Normalize(status);
      && (IsFailed(n) <==> IsFailed(status)) && (IsFinished(n) <==> IsFinished(status))
      && (IsPaused(n) <==> IsPaused(status)) && (IsPreparing(n) <==> IsPreparing(status))
      && (IsPrinting(n) <==> IsPrinting(status))
  {
    hide Contains, Normalize;
    NormalizeIsIdempotent(status);
  }

  /** What a status text is called, and the lifecycle it stands for: the first line that applies. */
  lemma StatusNames(status: string, error: bool)
    ensures var n := Normalize(status);
      && PrettyStatus(status) ==
         (if n == "" then "" else if n == "UNKNOWN" then ""
          else if Contains(n, "DOWNLOAD") then "downloading"
          else if IsFailed(status) then "failed"
          else if IsFinished(status) then "done"
          else if IsPaused(status) then "paused"
          else if IsPreparing(status) then "preparing"
          else if IsPrinting(status) then "printing"
          else if Contains(n, "OFFLINE") then "offline"
          else if Contains(n, "IDLE") then "idle" else if Contains(n, "WAIT") then "idle" else "")
      && LifecycleFromStatus(status, error) ==
         (if error then LifecycleError
          else if n == "" then Unknown else if n == "UNKNOWN" then Unknown
          else if IsFailed(status) then LifecycleError
          else if IsPaused(status) then Paused
          else if IsPreparing(status) then Preparing
          else if IsPrinting(status) then Printing
          else if IsFinished(status) then Finished
          else if Contains(n, "IDLE") then B.Idle else if Contains(n, "WAIT") then B.Idle
          else if Contains(n, "OFFLINE") then B.Idle else Unknown)
  {
    hide Contains, Normalize, IsFailed, IsFinished, IsPaused, IsPreparing, IsPrinting;
    SameClasses(status);
  }

  // ----- stage words

  lemma PreheatWords(stage: string)
    ensures IsPreheatStage(stage) <==>
            Contains(stage, "preheat") || Contains(stage, "heating_hotend") || Contains(stage, "heating_chamber")
            || Contains(stage, "waiting_for_heatbed_temperature") || Contains(stage, "thermal_preconditioning")
  {
    assert OccursAt("heatbed_preheating", "preheat", 8) by { assert "heatbed_preheating"[8..15] == "preheat"; }
    assert OccursAt("nozzle_preheating", "preheat", 7) by { assert "nozzle_preheating"[7..14] == "preheat"; }
    HoldsPart(stage, "heatbed_preheating", "preheat", 8);
    HoldsPart(stage, "nozzle_preheating", "preheat", 7);
    hide Contains, OccursAt;
  }

  lemma CleanWords(stage: string)
    ensures IsCleanStage(stage) <==> Contains(stage, "clean")
  {
    assert OccursAt("cleaning_nozzle_tip", "clean", 0) by { assert "cleaning_nozzle_tip"[0..5] == "clean"; }
    HoldsPart(stage, "cleaning_nozzle_tip", "clean", 0);
    hide Contains, OccursAt;
  }

  lemma LevelWords(stage: string)
    ensures IsLevelStage(stage) <==> Contains(stage, "bed_level") || Contains(stage, "measuring_surface")
  {
    assert OccursAt("auto_bed_leveling", "bed_level", 5) by { assert "auto_bed_leveling"[5..14] == "bed_level"; }
    HoldsPart(stage, "auto_bed_leveling", "bed_level", 5);
    hide Contains, OccursAt;
  }

  lemma CoolingWords(stage: string, status: string)
    ensures IsCoolingStage(stage, status) <==> Contains(stage, "cool") || Contains(status, "cool")
  {
    assert OccursAt("cooling_down", "cool", 0) by { assert "cooling_down"[0..4] == "cool"; }
    assert OccursAt("heated_bedcooling", "cool", 10) by { assert "heated_bedcooling"[10..14] == "cool"; }
    HoldsPart(stage, "cooling_down", "cool", 0);
    HoldsPart(stage, "heated_bedcooling", "cool", 10);
    hide Contains, OccursAt;
  }

  lemma FilamentWords(stage: string)
    ensures IsFilamentStage(stage) <==>
            Contains(Lower(stage), "filament_loading") || Contains(Lower(stage), "filament_unloading")
            || Contains(Lower(stage), "changing_filament")
  {
    hide Contains, Lower;
  }

  lemma DownloadWords(stage: string, status: string)
    ensures IsDownloadStage(stage, status) <==>
            Contains(Lower(stage), "download") || Contains(Lower(status), "download")
  {
    hide Contains, Lower;
  }

  lemma SetupWords(stage: string)
    ensures IsSetupStage(stage) <==>
            Contains(stage, "sweeping_xy_mech_mode") || Contains(stage, "scanning_bed_surface")
            || Contains(stage, "inspecting_first_layer") || Contains(stage, "identifying_build_plate")
            || Contains(stage, "calibrating_micro_lidar") || Contains(stage, "calibrating_extrusion")
            || Contains(stage, "homing_toolhead") || Contains(stage, "checking_extruder_temperature")
            || Contains(stage, "calibrating_motor_noise") || Contains(stage, "absolute_accuracy_calibration")
            || Contains(stage, "check_absolute_accuracy") || Contains(stage, "calibrate_nozzle_offset")
            || Contains(stage, "check_quick_release") || Contains(stage, "check_door_and_cover")
            || Contains(stage, "laser_calibration") || Contains(stage, "check_plaform")
            || Contains(stage, "check_birdeye_camera_position") || Contains(stage, "calibrate_birdeye_camera")
            || Contains(stage, "print_calibration_lines") || Contains(stage, "check_material")
            || Contains(stage, "calibrating_live_view_camera")
            || Contains(stage, "calibrating_cutter_model_offset")
  {
    MorePreciseSetupWords();
    HoldsPart(stage, "calibrating_extrusion_flow", "calibrating_extrusion", 0);
    HoldsPart(stage, "check_material_position", "check_material", 0);
    hide Contains, OccursAt;
  }

  lemma MorePreciseSetupWords()
    ensures OccursAt("calibrating_extrusion_flow", "calibrating_extrusion", 0)
    ensures OccursAt("check_material_position", "check_material", 0)
  {
    assert "calibrating_extrusion_flow"[0..21] == "calibrating_extrusion";
    assert "check_material_position"[0..14] == "check_material";
  }

  lemma PreparingAndPaused(status: string, stage: string)
    ensures IsPrepareStatus(status, stage) <==>
            IsPreparing(status) || IsPreheatStage(stage) || Contains(stage, "download") || Contains(status, "download")
    ensures IsPausedStatus(status, stage) <==> IsPaused(status) || Contains(stage, "pause")
  {
    hide Contains, IsPreparing, IsPaused, IsPreheatStage;
  }

  /** A download has handed off once any later stage is under way. */
  lemma HandOffWords(stage: string, status: string)
    ensures var lowered := Lower(stage);
      IsPostDownloadHandoff(stage, status) <==>
        && !IsDownloadStage(stage, status)
        && (Contains(lowered, "printing") || IsPreheatStage(lowered) || IsCleanStage(lowered)
            || IsLevelStage(lowered) || IsSetupStage(lowered) || IsFilamentStage(lowered))
  {
    hide Contains, Lower, IsPreheatStage, IsCleanStage, IsLevelStage, IsSetupStage, IsFilamentStage, IsDownloadStage;
  }

  // ----- words shown as they came

  predicate Separates(c: char) {
    c == '_' || c == '-' || c == ' ' || 9 <= c as int <= 13
  }

  /** Every word begins with a capital and goes on in small letters; underscores and hyphens become blanks. */
  lemma {:induction false} TitlecaseAt(s: string, capitalize: bool, k: nat)
    requires k < |s|
    ensures |Titlecase(s, capitalize)| == |s|
    ensures Titlecase(s, capitalize)[k] ==
            if s[k] == '_' || s[k] == '-' then ' '
            else if Separates(s[k]) then s[k]
            else if (if k == 0 then capitalize else Separates(s[k - 1])) then UpperChar(s[k]) else LowerChar(s[k])
  {
    if k > 0 {
      TitlecaseAt(s[1..], Separates(s[0]), k - 1);
    } else if |s| > 1 {
      TitlecaseAt(s[1..], Separates(s[0]), 0);
    }
  }

  /** Long texts end in dots where there is room for them. */
  lemma ShortenKeeps(s: string, max: nat)
    ensures |Shorten(s, max)| <= max
    ensures |s| <= max ==> Shorten(s, max) == s
    ensures |s| > max && max <= 3 ==> Shorten(s, max) == s[..max]
    ensures |s| > max > 3 ==> Shorten(s, max) == s[..max - 3] + "..."
  {
  }
}
