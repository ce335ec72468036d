/** Merging flash segments into one image. */
module FlashMerge {
  import opened Bytes

  /** An erased cell. */
  const ERASED: Byte := 0xFF

  datatype Entry = Entry(offset: nat, payload: seq<Byte>)

  datatype Failure = NoEntries | ConflictAt(index: nat)

  datatype Outcome = Image(bytes: seq<Byte>) | Rejected(why: Failure)

  // ----- what entries say about a cell

  function End(e: Entry): nat {
    e.offset + |e.payload|
  }

  predicate Covers(e: Entry, pos: nat) {
    e.offset <= pos < End(e)
  }

  function ByteAt(e: Entry, pos: nat): Byte
    requires Covers(e, pos)
  {
    e.payload[pos - e.offset]
  }

  predicate Clash(a: Entry, b: Entry, pos: nat) {
    Covers(a, pos) && Covers(b, pos) && ByteAt(a, pos) != ERASED && ByteAt(a, pos) != ByteAt(b, pos)
  }

  /** No entry writes a different byte over one that an earlier entry programmed. */
  ghost predicate Compatible(es: seq<Entry>) {
    forall i, j, pos: nat :: 0 <= i < j < |es| ==> !Clash(es[i], es[j], pos)
  }

  /** What the last entry over a cell put there. */
  function Cell(es: seq<Entry>, pos: nat): Byte {
    if es == [] then ERASED
    else
      var last := es[|es| - 1];
      if Covers(last, pos) then ByteAt(last, pos) else Cell(es[..|es| - 1], pos)
  }

  function Size(es: seq<Entry>): nat {
    if es == [] then 0
    else
      var rest := Size(es[..|es| - 1]);
      if End(es[|es| - 1]) > rest then End(es[|es| - 1]) else rest
  }

  function Flat(es: seq<Entry>): seq<Byte> {
    seq(Size(es), (pos: nat) => Cell(es, pos))
  }

  /** Some entry programs this cell with this byte. */
  ghost predicate Programs(es: seq<Entry>, pos: nat, b: Byte) {
    exists k :: 0 <= k < |es| && Covers(es[k], pos) && ByteAt(es[k], pos) == b
  }

  // ----- laws

  lemma ProgramsInit(es: seq<Entry>, pos: nat, b: Byte)
    requires es != []
    ensures var last := es[|es| - 1];
      Programs(es, pos, b) <==> Programs(es[..|es| - 1], pos, b) || (Covers(last, pos) && ByteAt(last, pos) == b)
  {
    var init := es[..|es| - 1];
    if Programs(init, pos, b) {
      var k :| 0 <= k < |init| && Covers(init[k], pos) && ByteAt(init[k], pos) == b;
      assert es[k] == init[k];
    }
  }

  lemma CompatibleInit(es: seq<Entry>)
    requires es != []
    ensures var init, last := es[..|es| - 1], es[|es| - 1];
      Compatible(es) <==> Compatible(init) && forall i, pos: nat :: 0 <= i < |init| ==> !Clash(init[i], last, pos)
  {
    hide Clash;
    var init, last := es[..|es| - 1], es[|es| - 1];
    if Compatible(es) {
      forall i, j, pos: nat | 0 <= i < j < |init| ensures !Clash(init[i], init[j], pos) {
        assert !Clash(es[i], es[j], pos);
      }
      forall i, pos: nat | 0 <= i < |init| ensures !Clash(init[i], last, pos) {
        assert !Clash(es[i], es[|es| - 1], pos);
      }
    }
    if Compatible(init) && forall i, pos: nat :: 0 <= i < |init| ==> !Clash(init[i], last, pos) {
      forall i, j, pos: nat | 0 <= i < j < |es| ensures !Clash(es[i], es[j], pos) {
        assert es[i] == init[i];
        if j < |init| {
          assert !Clash(init[i], init[j], pos);
        } else {
          assert !Clash(init[i], last, pos);
        }
      }
    }
  }

  /** A successful merge keeps every programmed byte of every segment and invents none. */
  lemma {:induction false} MergeKeepsExactlyTheProgrammedBytes(es: seq<Entry>, pos: nat, b: Byte)
    requires Compatible(es) && b != ERASED
    ensures Cell(es, pos) == b <==> Programs(es, pos, b)
  {
    hide Compatible, Programs, Clash;
    if es != [] {
      var init, last := es[..|es| - 1], es[|es| - 1];
      CompatibleInit(es);
      ProgramsInit(es, pos, b);
      MergeKeepsExactlyTheProgrammedBytes(init, pos, b);
      if Programs(init, pos, b) && Covers(last, pos) {
        var k := Programmer(init, pos, b);
        NoClashMeans(init[k], last, pos);
      }
    } else {
      NothingIsProgrammed(pos, b);
    }
  }

  lemma NothingIsProgrammed(pos: nat, b: Byte)
    ensures !Programs([], pos, b)
  {
  }

  lemma Programmer(es: seq<Entry>, pos: nat, b: Byte) returns (k: nat)
    requires Programs(es, pos, b)
    ensures k < |es| && Covers(es[k], pos) && ByteAt(es[k], pos) == b
  {
    k :| 0 <= k < |es| && Covers(es[k], pos) && ByteAt(es[k], pos) == b;
  }

  lemma NoClashMeans(a: Entry, b: Entry, pos: nat)
    requires !Clash(a, b, pos) && Covers(a, pos) && Covers(b, pos) && ByteAt(a, pos) != ERASED
    ensures ByteAt(a, pos) == ByteAt(b, pos)
  {
  }

  lemma {:induction false} SizeIsTheFurthestEnd(es: seq<Entry>)
    ensures forall k :: 0 <= k < |es| ==> End(es[k]) <= Size(es)
    ensures Size(es) == 0 || exists k :: 0 <= k < |es| && End(es[k]) == Size(es)
  {
    if es != [] {
      var init := es[..|es| - 1];
      SizeIsTheFurthestEnd(init);
      forall k | 0 <= k < |es| ensures End(es[k]) <= Size(es) {
        if k < |init| {
          assert init[k] == es[k];
        }
      }
      if Size(es) == Size(init) && Size(es) != 0 {
        var k :| 0 <= k < |init| && End(init[k]) == Size(init);
        assert es[k] == init[k];
      } else if Size(es) != 0 {
        assert End(es[|es| - 1]) == Size(es);
      }
    }
  }

  ghost predicate SameEntries(a: seq<Entry>, b: seq<Entry>) {
    (forall i :: 0 <= i < |a| ==> a[i] in b) && (forall i :: 0 <= i < |b| ==> b[i] in a)
  }

  lemma SizeWithin(a: seq<Entry>, b: seq<Entry>)
    requires forall i :: 0 <= i < |a| ==> a[i] in b
    ensures Size(a) <= Size(b)
  {
    SizeIsTheFurthestEnd(a);
    SizeIsTheFurthestEnd(b);
    if Size(a) != 0 {
      var k :| 0 <= k < |a| && End(a[k]) == Size(a);
      var j :| 0 <= j < |b| && b[j] == a[k];
    }
  }

  lemma ProgramsWithin(a: seq<Entry>, b: seq<Entry>, pos: nat, v: Byte)
    requires (forall i :: 0 <= i < |a| ==> a[i] in b) && Programs(a, pos, v)
    ensures Programs(b, pos, v)
  {
    var k := Programmer(a, pos, v);
    var j :| 0 <= j < |b| && b[j] == a[k];
  }

  /** Any two orders of the same entries that both succeed give the same image. */
  lemma SuccessfulOrdersAgree(a: seq<Entry>, b: seq<Entry>)
    requires SameEntries(a, b) && Compatible(a) && Compatible(b)
    ensures Flat(a) == Flat(b)
  {
    hide Compatible, Programs, Cell, Size;
    SizeWithin(a, b);
    SizeWithin(b, a);
    forall pos: nat | pos < Size(a) ensures Cell(a, pos) == Cell(b, pos) {
      SameCell(a, b, pos, Cell(a, pos));
      SameCell(b, a, pos, Cell(b, pos));
    }
  }

  lemma SameCell(a: seq<Entry>, b: seq<Entry>, pos: nat, v: Byte)
    requires SameEntries(a, b) && Compatible(a) && Compatible(b) && v == Cell(a, pos)
    ensures v != ERASED ==> Cell(b, pos) == v
  {
    hide Compatible, Programs, Cell;
    if v != ERASED {
      MergeKeepsExactlyTheProgrammedBytes(a, pos, v);
      ProgramsWithin(a, b, pos, v);
      MergeKeepsExactlyTheProgrammedBytes(b, pos, v);
    }
  }

  /** The order can still decide whether a merge succeeds: an explicit FF does not yield to a
      programmed byte before it. */
  lemma OrderCanDecideSuccess(offset: nat, v: Byte)
    requires v != ERASED
    ensures var blank, code := Entry(offset, [ERASED]), Entry(offset, [v]);
      Compatible([blank, code]) && !Compatible([code, blank])
  {
    var blank, code := Entry(offset, [ERASED]), Entry(offset, [v]);
    assert [code, blank][0] == code && [code, blank][1] == blank;
    assert Clash(code, blank, offset);
  }

  /** Wherever two segments overlap they hold the same byte, an erased one included. */
  ghost predicate OverlapsAgree(es: seq<Entry>) {
    forall i, j, pos: nat ::
      0 <= i < |es| && 0 <= j < |es| && i != j && Covers(es[i], pos) && Covers(es[j], pos) ==>
        ByteAt(es[i], pos) == ByteAt(es[j], pos)
  }

  ghost predicate Reorders(a: seq<Entry>, b: seq<Entry>) {
    multiset(a) == multiset(b)
  }

  function Exchanged(es: seq<Entry>, i: nat, j: nat): seq<Entry>
    requires i < |es| && j < |es|
  {
    es[i := es[j]][j := es[i]]
  }

  lemma ExchangeReorders(es: seq<Entry>, i: nat, j: nat)
    requires i < |es| && j < |es|
    ensures Reorders(es, Exchanged(es, i, j))
  {
    assert multiset(es[i := es[j]]) == multiset(es) - multiset{es[i]} + multiset{es[j]};
  }

  lemma AgreementSurvivesReordering(es: seq<Entry>, b: seq<Entry>)
    requires OverlapsAgree(es) && Reorders(es, b)
    ensures Compatible(b)
  {
    forall i, j, pos: nat | 0 <= i < j < |b| ensures !Clash(b[i], b[j], pos) {
      assert b[i] in multiset(es) && b[j] in multiset(es);
      var k :| 0 <= k < |es| && es[k] == b[i];
      var l :| 0 <= l < |es| && es[l] == b[j];
    }
  }

  /** An overlap that disagrees makes the merge fail as soon as the programmed byte comes first. */
  lemma DisagreementFailsInSomeOrder(es: seq<Entry>, i: nat, j: nat, pos: nat)
    requires i < |es| && j < |es| && i != j && Covers(es[i], pos) && Covers(es[j], pos)
    requires ByteAt(es[i], pos) != ERASED && ByteAt(es[i], pos) != ByteAt(es[j], pos)
    ensures exists b: seq<Entry> :: Reorders(es, b) && !Compatible(b)
  {
    var b := if i < j then es else Exchanged(es, i, j);
    ExchangeReorders(es, i, j);
    assert Clash(es[i], es[j], pos);
    assert if i < j then b[i] == es[i] && b[j] == es[j] else b[j] == es[i] && b[i] == es[j];
    assert Reorders(es, b) && !Compatible(b);
  }

  /** The merge succeeds in every order exactly when overlapping segments agree wherever they overlap. */
  lemma EveryOrderSucceedsExactly(es: seq<Entry>)
    ensures (forall b: seq<Entry> :: Reorders(es, b) ==> Compatible(b)) <==> OverlapsAgree(es)
  {
    hide Compatible, Reorders;
    if OverlapsAgree(es) {
      forall b: seq<Entry> | Reorders(es, b) ensures Compatible(b) {
        AgreementSurvivesReordering(es, b);
      }
    } else {
      var i, j, pos: nat :|
        0 <= i < |es| && 0 <= j < |es| && i != j && Covers(es[i], pos) && Covers(es[j], pos)
        && ByteAt(es[i], pos) != ByteAt(es[j], pos);
      if ByteAt(es[i], pos) != ERASED {
        DisagreementFailsInSomeOrder(es, i, j, pos);
      } else {
        DisagreementFailsInSomeOrder(es, j, i, pos);
      }
    }
  }

  // ----- the merge

  /** validate_no_conflicts: the whole payload is checked before any of it is written. */
  method Place(image: array<Byte>, e: Entry) returns (ok: bool, at: nat)
    requires End(e) <= image.Length
    modifies image
    ensures ok <==> forall pos: nat :: Covers(e, pos) ==> old(image[pos]) in {ERASED, ByteAt(e, pos)}
    ensures !ok ==> Covers(e, at) && old(image[at]) !in {ERASED, ByteAt(e, at)} && image[..] == old(image[..])
    ensures ok ==> forall pos: nat :: pos < image.Length ==>
                     image[pos] == if Covers(e, pos) then ByteAt(e, pos) else old(image[pos])
  {
    for k := 0 to |e.payload|
      invariant forall pos: nat :: e.offset <= pos < e.offset + k ==> image[pos] in {ERASED, ByteAt(e, pos)}
      invariant image[..] == old(image[..])
    {
      var existing := image[e.offset + k];
      if existing != ERASED && existing != e.payload[k] {
        assert !(old(image[e.offset + k]) in {ERASED, ByteAt(e, e.offset + k)});
        return false, e.offset + k;
      }
    }
    for k := 0 to |e.payload|
      invariant forall pos: nat :: pos < image.Length ==>
        image[pos] == if e.offset <= pos < e.offset + k then ByteAt(e, pos) else old(image[pos])
    {
      image[e.offset + k] := e.payload[k];
    }
    return true, 0;
  }

  method LargestEnd(es: seq<Entry>) returns (size: nat)
    ensures size == Size(es)
  {
    size := 0;
    for k := 0 to |es|
      invariant size == Size(es[..k])
    {
      assert es[..k + 1][..k] == es[..k];
      if End(es[k]) > size {
        size := End(es[k]);
      }
    }
    assert es[..|es|] == es;
  }

  /** Placing one more entry fails exactly when it clashes with an earlier one. */
  lemma PlacingChecksEveryClash(es: seq<Entry>, n: nat)
    requires n < |es| && Compatible(es[..n])
    ensures Compatible(es[..n + 1]) <==>
            forall pos: nat :: Covers(es[n], pos) ==> Cell(es[..n], pos) in {ERASED, ByteAt(es[n], pos)}
  {
    hide Compatible, Programs, Cell;
    var init, last := es[..n], es[n];
    assert es[..n + 1][..n] == init && es[..n + 1][n] == last;
    CompatibleInit(es[..n + 1]);
    if forall i, pos: nat :: 0 <= i < n ==> !Clash(init[i], last, pos) {
      forall pos: nat | Covers(last, pos) ensures Cell(init, pos) in {ERASED, ByteAt(last, pos)} {
        var v := Cell(init, pos);
        if v != ERASED {
          MergeKeepsExactlyTheProgrammedBytes(init, pos, v);
          var k := Programmer(init, pos, v);
          assert !Clash(init[k], last, pos);
        }
      }
    } else {
      var i, pos: nat :| 0 <= i < n && Clash(init[i], last, pos);
      var v := ByteAt(init[i], pos);
      assert Programs(init, pos, v) by {
        IsProgrammed(init, pos, i);
      }
      MergeKeepsExactlyTheProgrammedBytes(init, pos, v);
    }
  }

  lemma IsProgrammed(es: seq<Entry>, pos: nat, k: nat)
    requires k < |es| && Covers(es[k], pos)
    ensures Programs(es, pos, ByteAt(es[k], pos))
  {
  }

  lemma {:induction false} PrefixIsCompatible(es: seq<Entry>, n: nat)
    requires n <= |es| && Compatible(es)
    ensures Compatible(es[..n])
    decreases |es|
  {
    hide Compatible, Clash;
    if n < |es| {
      CompatibleInit(es);
      assert es[..|es| - 1][..n] == es[..n];
      PrefixIsCompatible(es[..|es| - 1], n);
    } else {
      assert es[..n] == es;
    }
  }

  /** merge_flash_entries */
  method Merge(es: seq<Entry>) returns (r: Outcome)
    ensures r.Image? <==> es != [] && Compatible(es)
    ensures r.Image? ==> r.bytes == Flat(es)
    ensures r == Rejected(NoEntries) <==> es == []
  {
    hide Compatible, Cell, Size;
    if es == [] {
      return Rejected(NoEntries);
    }
    var size := LargestEnd(es);
    SizeIsTheFurthestEnd(es);
    var merged := new Byte[size](_ => ERASED);
    assert Compatible(es[..0]) && forall pos: nat :: Cell(es[..0], pos) == ERASED by {
      EmptyMerge();
      assert es[..0] == [];
    }
    for n := 0 to |es|
      invariant Compatible(es[..n])
      invariant forall pos: nat :: pos < size ==> merged[pos] == Cell(es[..n], pos)
      invariant fresh(merged)
    {
      PlacingChecksEveryClash(es, n);
      CellOfSnoc(es, n);
      var ok, at := Place(merged, es[n]);
      if !ok {
        if Compatible(es) {
          PrefixIsCompatible(es, n + 1);
        }
        return Rejected(ConflictAt(at));
      }
    }
    assert es[..|es|] == es;
    return Image(merged[..]);
  }

  lemma EmptyMerge()
    ensures Compatible([]) && forall pos: nat :: Cell([], pos) == ERASED
  {
  }

  lemma CellOfSnoc(es: seq<Entry>, n: nat)
    requires n < |es|
    ensures forall pos: nat ::
      Cell(es[..n + 1], pos) == if Covers(es[n], pos) then ByteAt(es[n], pos) else Cell(es[..n], pos)
  {
    assert es[..n + 1][..n] == es[..n];
  }
}
