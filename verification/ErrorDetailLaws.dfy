/** What is shown for a fault: which code speaks, and in which words. */
module ErrorDetailLaws {
  import opened Text
  import opened ErrorTable
  import opened ErrorTableLaws
  import opened ErrorTextLaws
  import opened ErrorLookup

  /** A code that may be shown: not zero, and not the one the printers send without cause. */
  predicate MayBeShown(code: nat) {
    code != 0 && code != 0x050002000003000A
  }

  lemma Shows(code: nat)
    ensures Displayable(code) <==> MayBeShown(code)
  {
  }

  lemma {:induction false} FirstTextIs(codes: seq<nat>, told: nat -> string, k: nat)
    requires k < |codes| && MayBeShown(codes[k]) && told(codes[k]) != ""
    requires forall j :: 0 <= j < k ==> !MayBeShown(codes[j]) || told(codes[j]) == ""
    ensures FirstTold(codes, told) == told(codes[k])
  {
    hide Displayable, MayBeShown;
    Shows(codes[0]);
    if k > 0 {
      FirstTextIs(codes[1..], told, k - 1);
    }
  }

  lemma {:induction false} NoTextIs(codes: seq<nat>, told: nat -> string)
    requires forall j :: 0 <= j < |codes| ==> !MayBeShown(codes[j]) || told(codes[j]) == ""
    ensures FirstTold(codes, told) == ""
  {
    hide Displayable, MayBeShown;
    if codes != [] {
      Shows(codes[0]);
      NoTextIs(codes[1..], told);
    }
  }

  lemma {:induction false} FirstCodeIs(codes: seq<nat>, k: nat)
    requires k <= |codes| && (k < |codes| ==> MayBeShown(codes[k]))
    requires forall j :: 0 <= j < k ==> !MayBeShown(codes[j])
    ensures FirstDisplayable(codes) == if k < |codes| then codes[k] else 0
  {
    hide Displayable, MayBeShown;
    if codes != [] {
      Shows(codes[0]);
      if k > 0 {
        FirstCodeIs(codes[1..], k - 1);
      }
    }
  }

  /** The first code that may be shown and has a text gives it. */
  lemma FirstTextIsShown(codes: seq<nat>, count: int, told: nat -> string, k: nat)
    requires k < |codes| && MayBeShown(codes[k]) && told(codes[k]) != ""
    requires forall j :: 0 <= j < k ==> !MayBeShown(codes[j]) || told(codes[j]) == ""
    ensures HmsDetail(codes, count, told) == told(codes[k])
  {
    hide FirstTold, MayBeShown;
    FirstTextIs(codes, told, k);
  }

  /** With no text at all the first code that may be shown is named, and with no such code the alerts are
      counted, if there are any. */
  lemma WithoutTexts(codes: seq<nat>, count: int, told: nat -> string, k: nat)
    requires forall j :: 0 <= j < |codes| ==> !MayBeShown(codes[j]) || told(codes[j]) == ""
    requires k <= |codes| && forall j :: 0 <= j < k ==> !MayBeShown(codes[j])
    requires k < |codes| ==> MayBeShown(codes[k])
    ensures HmsDetail(codes, count, told) ==
            if k < |codes| then GenericHms(codes[k]) else if count > 0 then "HMS alerts: " + Decimal(count) else ""
  {
    NoTextIs(codes, told);
    FirstCodeIs(codes, k);
    assert k < |codes| ==> codes[k] != 0;
    hide FirstTold, FirstDisplayable, MayBeShown, GenericHms, Decimal;
  }

  /** A code without a text is named in two groups of capital hexadecimal digits. */
  lemma NamesItsCode(code: nat, printError: int)
    ensures 0 < code < Pow16(16) ==>
              exists a, b :: |a| == 8 && |b| == 8 && Number(a + b) == code && GenericHms(code) == "HMS " + a + "_" + b
    ensures printError != 0 ==>
              exists a, b :: |a| == 4 && |b| == 4 && Number(a + b) == printError % 0x1_0000_0000
                             && GenericPrintError(printError) == "Print error " + a + "_" + b
    ensures GenericPrintError(0) == "" && GenericHms(0) == ""
  {
    hide Hex, Number, Pow16;
    LowWord();
    if 0 < code < Pow16(16) {
      HexReadsBack(code, 16);
      var h := Hex(code, 16);
      assert h[..8] + h[8..] == h;
      assert |h[..8]| == 8 && |h[8..]| == 8 && GenericHms(code) == "HMS " + h[..8] + "_" + h[8..];
    }
    if printError != 0 {
      var low := printError % 0x1_0000_0000;
      HexReadsBack(low, 8);
      var h := Hex(low, 8);
      assert h[..4] + h[4..] == h;
      assert |h[..4]| == 4 && |h[4..]| == 4
             && GenericPrintError(printError) == "Print error " + h[..4] + "_" + h[4..];
    }
  }
}
