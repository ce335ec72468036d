/** The filter for signed links: a signature is matched with the nearest link in front of it. */
module LinkScrubber {
  import opened Text
  import opened KeyScrubber

  const URL_START := "https://"
  const URL_MARK := "[presigned-url-hidden]"
  const SIGNATURE := "X-Amz-"

  predicate EndsUrl(c: char) {
    c in {' ', '\t', '\n', '\r', '"', '\''}
  }

  /** The first column in which the backward search finds a link. */
  const FIRST_COLUMN: nat := 7

  /** No link stands in front of a signature that begins before `end`. */
  ghost predicate NoSignedLinkBefore(s: string, end: nat) {
    forall k: nat, pos: nat ::
      FIRST_COLUMN <= k <= pos < end && OccursAt(s, URL_START, k) ==> !OccursAt(s, SIGNATURE, pos)
  }

  ghost predicate NoSignedLink(s: string) {
    NoSignedLinkBefore(s, |s|)
  }

  lemma SignatureAt(s: string, pos: nat)
    requires OccursAt(s, SIGNATURE, pos)
    ensures pos + 6 <= |s| && s[pos] == 'X' && s[pos + 1] == '-'
    ensures forall k :: pos <= k < pos + 6 ==> s[k] != '[' && s[k] != 'h'
  {
    assert forall k :: pos <= k < pos + 6 ==> s[k] == s[pos..pos + 6][k - pos] == SIGNATURE[k - pos];
  }

  lemma LinkStartsWithH(s: string, k: nat)
    requires OccursAt(s, URL_START, k)
    ensures k + 8 <= |s| && s[k] == 'h' && s[k + 1] == 't'
    ensures forall j :: k <= j < k + 8 ==> s[j] != '[' && (j > k ==> s[j] != 'h')
  {
    assert forall j :: k <= j < k + 8 ==> s[j] == s[k..k + 8][j - k] == URL_START[j - k];
  }

  /** The mark in place of a link makes no new one in front of the place where the search goes on. */
  lemma MarkKeepsClean(s: string, start: nat, stop: nat, pos: nat)
    requires start <= pos <= stop <= |s| && NoSignedLinkBefore(s, pos)
    ensures NoSignedLinkBefore(s[..start] + URL_MARK + s[stop..], start + 21)
  {
    hide OccursAt;
    var t := s[..start] + URL_MARK + s[stop..];
    forall k: nat, q: nat | FIRST_COLUMN <= k <= q < start + 21 && OccursAt(t, URL_START, k)
      ensures !OccursAt(t, SIGNATURE, q)
    {
      if OccursAt(t, SIGNATURE, q) {
        LinkStartsWithH(t, k);
        SignatureAt(t, q);
        UrlMarkAt(s, start, stop);
        OccursInPrefix(t, s, start, URL_START, k);
        OccursInPrefix(t, s, start, SIGNATURE, q);
      }
    }
  }

  lemma UrlMarkAt(s: string, start: nat, stop: nat)
    requires start <= stop <= |s|
    ensures var t := s[..start] + URL_MARK + s[stop..];
      && t[..start] == s[..start] && t[start] == '['
      && forall k :: start <= k < start + 22 ==> t[k] != 'X'
  {
    var t := s[..start] + URL_MARK + s[stop..];
    assert forall k :: start <= k < start + 22 ==> t[k] == URL_MARK[k - start];
  }

  // ----- the filter

  /** The nearest link in front of a signature, as far back as the search goes. */
  datatype Link = NoLink | LinkAt(start: nat)

  function NearestLink(s: string, from: nat): (link: Link)
    ensures link.LinkAt? ==> FIRST_COLUMN <= link.start <= from && OccursAt(s, URL_START, link.start)
    ensures forall k: nat :: (if link.LinkAt? then link.start < k else FIRST_COLUMN <= k) && k <= from ==>
              !OccursAt(s, URL_START, k)
  {
    if from < FIRST_COLUMN then NoLink
    else if OccursAt(s, URL_START, from) then LinkAt(from)
    else NearestLink(s, from - 1)
  }

  function UrlEnd(s: string, from: nat): (end: nat)
    requires from <= |s|
    ensures from <= end <= |s|
    decreases |s| - from
  {
    if from == |s| || EndsUrl(s[from]) then from else UrlEnd(s, from + 1)
  }

  lemma SignatureIsInUrl(s: string, q: nat)
    requires OccursAt(s, SIGNATURE, q)
    ensures q + 6 <= |s| && q + 2 <= UrlEnd(s, q)
  {
    SignatureAt(s, q);
  }

  /** The line from `pos` on with every signature it comes across hidden, together with the nearest link
      in front of it and all between, as far as the address goes on. */
  function LinksHidden(s: string, pos: nat): string
    requires pos <= |s|
    decreases |s| - pos
  {
    var q := Locate(s, SIGNATURE, pos);
    if q == |s| then s
    else
      SignatureIsInUrl(s, q);
      match NearestLink(s, q)
      case NoLink => LinksHidden(s, q + 1)
      case LinkAt(start) => LinksHidden(s[..start] + URL_MARK + s[UrlEnd(s, q)..], start + 21)
  }

  /** One turn of the filter. */
  lemma LinkStep(s: string, pos: nat, q: nat)
    requires pos <= |s| && q == Locate(s, SIGNATURE, pos)
    ensures q == |s| ==> LinksHidden(s, pos) == s
    ensures q < |s| ==> q + 6 <= |s| && q + 2 <= UrlEnd(s, q)
    ensures q < |s| && NearestLink(s, q).NoLink? ==> LinksHidden(s, pos) == LinksHidden(s, q + 1)
    ensures q < |s| && NearestLink(s, q).LinkAt? ==>
              var start := NearestLink(s, q).start;
              LinksHidden(s, pos) == LinksHidden(s[..start] + URL_MARK + s[UrlEnd(s, q)..], start + 21)
  {
    hide Locate, OccursAt, NearestLink, UrlEnd;
    if q < |s| {
      SignatureIsInUrl(s, q);
    }
  }

  method FindLink(s: string, pos: nat) returns (start: nat, found: bool)
    requires OccursAt(s, SIGNATURE, pos)
    ensures start <= pos
    ensures NearestLink(s, pos) == if found then LinkAt(start) else NoLink
  {
    hide OccursAt;
    start := pos;
    while start >= 8 && !OccursAt(s, URL_START, start)
      invariant 0 <= start <= pos && (start < 7 ==> start == pos)
      invariant NearestLink(s, pos) == NearestLink(s, start)
    {
      start := start - 1;
    }
    found := OccursAt(s, URL_START, start);
    if found && start == pos {
      NoLinkInSignature(s, pos);
    }
  }

  lemma NoLinkInSignature(s: string, q: nat)
    requires OccursAt(s, SIGNATURE, q)
    ensures !OccursAt(s, URL_START, q)
  {
    SignatureAt(s, q);
    if OccursAt(s, URL_START, q) {
      LinkStartsWithH(s, q);
    }
  }

  /** scrub_presigned_urls */
  method ScrubPresignedUrls(input: string) returns (s: string)
    ensures s == LinksHidden(input, 0)
  {
    hide Locate, OccursAt, LinksHidden, NearestLink;
    s := input;
    var pos := 0;
    while true
      invariant 0 <= pos <= |s| && LinksHidden(s, pos) == LinksHidden(input, 0)
      decreases |s| - pos
    {
      var q := Locate(s, SIGNATURE, pos);
      LinkStep(s, pos, q);
      pos := q;
      if pos == |s| {
        break;
      }
      var start, found := FindLink(s, pos);
      if !found {
        pos := pos + 1;
        continue;
      }
      var stop := ScanUrl(s, pos);
      s := s[..start] + URL_MARK + s[stop..];
      pos := start + 21;
    }
  }

  method ScanUrl(s: string, from: nat) returns (stop: nat)
    requires from <= |s|
    ensures stop == UrlEnd(s, from)
  {
    stop := from;
    while stop < |s| && !EndsUrl(s[stop])
      invariant from <= stop <= |s| && UrlEnd(s, stop) == UrlEnd(s, from)
    {
      stop := stop + 1;
    }
  }

  // ----- what stays and what goes

  lemma CleanUpTo(s: string, pos: nat, q: nat)
    requires pos <= |s| && NoSignedLinkBefore(s, pos) && q == Locate(s, SIGNATURE, pos)
    ensures NoSignedLinkBefore(s, q)
    ensures q < |s| && NearestLink(s, q).NoLink? ==> NoSignedLinkBefore(s, q + 1)
  {
    hide OccursAt, NearestLink, Locate;
  }

  lemma UrlEndIsBehind(s: string, q: nat)
    requires OccursAt(s, SIGNATURE, q)
    ensures q <= |s| && q + 2 <= UrlEnd(s, q) <= |s|
  {
    SignatureIsInUrl(s, q);
  }

  /** No link that begins in the eighth column or later is left in front of a signature. */
  lemma {:induction false} NoSignedLinkSurvives(s: string, pos: nat)
    requires pos <= |s| && NoSignedLinkBefore(s, pos)
    ensures NoSignedLink(LinksHidden(s, pos))
    decreases |s| - pos
  {
    hide OccursAt, NearestLink, Locate, LinksHidden, UrlEnd, NoSignedLinkBefore;
    var q := Locate(s, SIGNATURE, pos);
    LinkStep(s, pos, q);
    CleanUpTo(s, pos, q);
    if q < |s| {
      match NearestLink(s, q)
      case NoLink => NoSignedLinkSurvives(s, q + 1);
      case LinkAt(start) =>
        MarkKeepsClean(s, start, UrlEnd(s, q), q);
        NoSignedLinkSurvives(s[..start] + URL_MARK + s[UrlEnd(s, q)..], start + 21);
    }
  }

  /** A line without such a link is left alone. */
  lemma {:induction false} NoSignedLinkIsUntouched(s: string, pos: nat)
    requires pos <= |s| && NoSignedLink(s)
    ensures LinksHidden(s, pos) == s
    decreases |s| - pos
  {
    hide OccursAt, Locate, LinksHidden, NearestLink;
    var q := Locate(s, SIGNATURE, pos);
    LinkStep(s, pos, q);
    if q < |s| {
      NoSignedLinkIsUntouched(s, q + 1);
    }
  }

  /** The link is replaced together with all that follows it up to the end of the signature's address. */
  lemma OneLinkIsReplaced(s: string, start: nat, q: nat)
    requires FIRST_COLUMN <= start <= q && OccursAt(s, URL_START, start) && OccursAt(s, SIGNATURE, q)
    requires forall k: nat :: start < k <= q ==> !OccursAt(s, URL_START, k)
    requires forall k: nat :: k < q || UrlEnd(s, q) <= k ==> !OccursAt(s, SIGNATURE, k)
    ensures q <= |s| && start <= UrlEnd(s, q) <= |s|
    ensures LinksHidden(s, 0) == s[..start] + URL_MARK + s[UrlEnd(s, q)..]
  {
    hide OccursAt, LinksHidden, UrlEnd, NearestLink, Locate;
    UrlEndIsBehind(s, q);
    LinkStep(s, 0, q);
    var stop := UrlEnd(s, q);
    NoMoreSignatures(s, start, stop);
    LinkStep(s[..start] + URL_MARK + s[stop..], start + 21, |s[..start] + URL_MARK + s[stop..]|);
  }

  /** The first signature decides: the nearest link in front of it, from the eighth column on, and all up to
      the next blank, line end or quote become the mark, and the search goes on inside it; with no such link
      the search goes on behind it. */
  lemma FirstSignatureDecides(s: string, q: nat)
    requires OccursAt(s, "X-Amz-", q) && forall k: nat :: k < q ==> !OccursAt(s, "X-Amz-", k)
    ensures q < |s|
    ensures (forall k: nat :: 7 <= k <= q ==> !OccursAt(s, "https://", k)) ==>
              LinksHidden(s, 0) == LinksHidden(s, q + 1)
    ensures forall start: nat, stop: nat ::
              7 <= start <= q <= stop <= |s| && OccursAt(s, "https://", start)
              && (forall k: nat :: start < k <= q ==> !OccursAt(s, "https://", k))
              && (forall k :: q <= k < stop ==> s[k] !in " \t\n\r\"'") && (stop < |s| ==> s[stop] in " \t\n\r\"'") ==>
              start + 21 <= |s[..start] + "[presigned-url-hidden]" + s[stop..]|
              && LinksHidden(s, 0) == LinksHidden(s[..start] + "[presigned-url-hidden]" + s[stop..], start + 21)
  {
    hide OccursAt, LinksHidden, UrlEnd, NearestLink, Locate;
    UrlEndIsBehind(s, q);
    assert Locate(s, SIGNATURE, 0) == q;
    LinkStep(s, 0, q);
    forall start: nat, stop: nat | 7 <= start <= q <= stop <= |s| && OccursAt(s, "https://", start)
              && (forall k: nat :: start < k <= q ==> !OccursAt(s, "https://", k))
              && (forall k :: q <= k < stop ==> s[k] !in " \t\n\r\"'") && (stop < |s| ==> s[stop] in " \t\n\r\"'")
      ensures start + 21 <= |s[..start] + "[presigned-url-hidden]" + s[stop..]|
      ensures LinksHidden(s, 0) == LinksHidden(s[..start] + "[presigned-url-hidden]" + s[stop..], start + 21)
    {
      UrlEndIs(s, q, stop);
      assert NearestLink(s, q) == LinkAt(start);
    }
  }

  lemma {:induction false} UrlEndIs(s: string, from: nat, stop: nat)
    requires from <= stop <= |s|
    requires (forall k :: from <= k < stop ==> s[k] !in " \t\n\r\"'") && (stop < |s| ==> s[stop] in " \t\n\r\"'")
    ensures UrlEnd(s, from) == stop
    decreases stop - from
  {
    if from < stop {
      UrlEndIs(s, from + 1, stop);
    }
  }

  lemma NoMoreSignatures(s: string, start: nat, stop: nat)
    requires start <= stop <= |s| && forall k: nat :: stop <= k ==> !OccursAt(s, SIGNATURE, k)
    ensures var t := s[..start] + URL_MARK + s[stop..]; Locate(t, SIGNATURE, start + 21) == |t|
  {
    hide OccursAt, Locate;
    var t := s[..start] + URL_MARK + s[stop..];
    var q := Locate(t, SIGNATURE, start + 21);
    if q < |t| {
      SignatureAt(t, q);
      UrlMarkAt(s, start, stop);
      assert t[start + 22..] == s[stop..];
      OccursInSuffix(t, SIGNATURE, start + 22, q);
      OccursInSuffix(s, SIGNATURE, stop, q - start - 22 + stop);
    }
  }

  /** The links in front of a mark, and those in it. */
  lemma LinksAtMark(s: string, start: nat, stop: nat, j: nat)
    requires start <= stop <= |s| && OccursAt(s, URL_START, start) && j < start + 22
    ensures OccursAt(s[..start] + URL_MARK + s[stop..], URL_START, j) <==> j < start && OccursAt(s, URL_START, j)
  {
    hide OccursAt;
    var t := s[..start] + URL_MARK + s[stop..];
    MarkHasNoLink(s, start, stop);
    LinkStartsWithH(s, start);
    if j + 8 <= start {
      OccursInPrefix(s, t, start, URL_START, j);
    } else {
      if OccursAt(t, URL_START, j) { LinkStartsWithH(t, j); }
      if j < start && OccursAt(s, URL_START, j) { LinkStartsWithH(s, j); }
    }
  }

  lemma MarkHasNoLink(s: string, start: nat, stop: nat)
    requires start <= stop <= |s|
    ensures var t := s[..start] + URL_MARK + s[stop..];
      && t[..start] == s[..start] && t[start] == '[' && t[start + 21] == ']' && t[start + 22..] == s[stop..]
      && forall k :: start <= k < start + 21 ==> !(t[k] == 'h' && t[k + 1] == 't')
  {
    var t := s[..start] + URL_MARK + s[stop..];
    assert forall k :: start <= k < start + 22 ==> t[k] == URL_MARK[k - start];
  }

  /** Links in the first columns always stay. */
  lemma {:induction false} FirstColumnsStay(s: string, pos: nat, k: nat)
    requires pos <= |s| && k < FIRST_COLUMN
    ensures OccursAt(LinksHidden(s, pos), URL_START, k) <==> OccursAt(s, URL_START, k)
    decreases |s| - pos
  {
    hide OccursAt, NearestLink, Locate, LinksHidden, UrlEnd;
    var q := Locate(s, SIGNATURE, pos);
    LinkStep(s, pos, q);
    if q < |s| {
      match NearestLink(s, q)
      case NoLink => FirstColumnsStay(s, q + 1, k);
      case LinkAt(start) =>
        FirstColumnsStay(s[..start] + URL_MARK + s[UrlEnd(s, q)..], start + 21, k);
        LinksAtMark(s, start, UrlEnd(s, q), k);
    }
  }

  // ----- which signatures stay

  /** The links that begin before `n`, in the columns the search reaches. */
  function LinksBefore(s: string, n: nat): nat {
    if n <= FIRST_COLUMN then 0 else LinksBefore(s, n - 1) + if OccursAt(s, URL_START, n - 1) then 1 else 0
  }

  /** Matching the signatures from `at` on, each with one link in front of it, with `open` links to begin
      with: one is left over. The rest of the address a matched signature stands in goes with it. */
  predicate LeavesSignature(s: string, at: nat, open: nat)
    requires at <= |s|
    decreases |s| - at
  {
    if at == |s| then false
    else if OccursAt(s, SIGNATURE, at) then
      UrlEndIsBehind(s, at);
      open == 0 || LeavesSignature(s, UrlEnd(s, at), open - 1)
    else LeavesSignature(s, at + 1, if FIRST_COLUMN <= at && OccursAt(s, URL_START, at) then open + 1 else open)
  }

  lemma LeavesStep(s: string, at: nat, open: nat)
    requires at < |s|
    ensures OccursAt(s, SIGNATURE, at) ==> at + 2 <= UrlEnd(s, at) <= |s|
    ensures OccursAt(s, SIGNATURE, at) ==>
              LeavesSignature(s, at, open) == (open == 0 || LeavesSignature(s, UrlEnd(s, at), open - 1))
    ensures !OccursAt(s, SIGNATURE, at) ==>
              LeavesSignature(s, at, open) ==
              LeavesSignature(s, at + 1, if FIRST_COLUMN <= at && OccursAt(s, URL_START, at) then open + 1 else open)
  {
    hide OccursAt, UrlEnd;
    if OccursAt(s, SIGNATURE, at) { UrlEndIsBehind(s, at); }
  }

  lemma {:induction false} SkipToSignature(s: string, pos: nat, q: nat)
    requires pos <= q <= |s| && forall k: nat :: pos <= k < q ==> !OccursAt(s, SIGNATURE, k)
    ensures LeavesSignature(s, pos, LinksBefore(s, pos)) == LeavesSignature(s, q, LinksBefore(s, q))
    decreases q - pos
  {
    hide OccursAt, LeavesSignature, UrlEnd;
    if pos < q {
      LeavesStep(s, pos, LinksBefore(s, pos));
      SkipToSignature(s, pos + 1, q);
    }
  }

  lemma {:induction false} UrlEndInSuffix(s: string, t: string, a: nat, b: nat)
    requires a <= |s| && b <= |t| && s[a..] == t[b..]
    ensures UrlEnd(s, a) - a == UrlEnd(t, b) - b
    decreases |s| - a
  {
    assert |s| - a == |t| - b;
    if a < |s| {
      assert s[a] == s[a..][0] == t[b..][0] == t[b];
      assert s[a + 1..] == s[a..][1..] == t[b..][1..] == t[b + 1..];
      UrlEndInSuffix(s, t, a + 1, b + 1);
    }
  }

  lemma SuffixOfEqual(s: string, t: string, a: nat, b: nat, n: nat)
    requires a <= |s| && b <= |t| && s[a..] == t[b..] && a + n <= |s|
    ensures b + n <= |t| && s[a + n..] == t[b + n..]
  {
    assert |s[a..]| == |t[b..]|;
    assert s[a + n..] == s[a..][n..] && t[b + n..] == t[b..][n..];
  }

  /** The matching depends on what is still to come alone. */
  lemma {:induction false} LeavesInSuffix(s: string, t: string, a: nat, b: nat, open: nat)
    requires FIRST_COLUMN <= a <= |s| && FIRST_COLUMN <= b <= |t| && s[a..] == t[b..]
    ensures LeavesSignature(s, a, open) == LeavesSignature(t, b, open)
    decreases |s| - a
  {
    hide OccursAt, UrlEnd, LeavesSignature;
    assert |s[a..]| == |t[b..]|;
    if a == |s| {
      NothingLeaves(s, open);
      NothingLeaves(t, open);
    } else {
      OccursInSuffix(s, SIGNATURE, a, a);
      OccursInSuffix(t, SIGNATURE, b, b);
      OccursInSuffix(s, URL_START, a, a);
      OccursInSuffix(t, URL_START, b, b);
      LeavesStep(s, a, open);
      LeavesStep(t, b, open);
      if OccursAt(s, SIGNATURE, a) {
        UrlEndInSuffix(s, t, a, b);
        SuffixOfEqual(s, t, a, b, UrlEnd(s, a) - a);
        if open > 0 {
          LeavesInSuffix(s, t, UrlEnd(s, a), UrlEnd(t, b), open - 1);
        }
      } else {
        SuffixOfEqual(s, t, a, b, 1);
        LeavesInSuffix(s, t, a + 1, b + 1, if OccursAt(s, URL_START, a) then open + 1 else open);
      }
    }
  }

  lemma NothingLeaves(s: string, open: nat)
    ensures !LeavesSignature(s, |s|, open)
  {
  }

  lemma {:induction false} NearestCounts(s: string, q: nat)
    ensures NearestLink(s, q).NoLink? ==> LinksBefore(s, q + 1) == 0
    ensures NearestLink(s, q).LinkAt? ==> LinksBefore(s, q + 1) == LinksBefore(s, NearestLink(s, q).start) + 1
  {
    hide OccursAt;
    if FIRST_COLUMN <= q && !OccursAt(s, URL_START, q) {
      NearestCounts(s, q - 1);
    }
  }

  lemma {:induction false} SameLinksBefore(s: string, t: string, n: nat)
    requires forall j: nat :: j < n ==> OccursAt(s, URL_START, j) == OccursAt(t, URL_START, j)
    ensures LinksBefore(s, n) == LinksBefore(t, n)
  {
    hide OccursAt;
    if n > FIRST_COLUMN {
      SameLinksBefore(s, t, n - 1);
    }
  }

  lemma {:induction false} NoLinksSince(s: string, m: nat, n: nat)
    requires m <= n && forall j: nat :: m <= j < n ==> !OccursAt(s, URL_START, j)
    ensures LinksBefore(s, n) == LinksBefore(s, m)
    decreases n
  {
    hide OccursAt;
    if m < n && n > FIRST_COLUMN {
      NoLinksSince(s, m, n - 1);
    }
  }

  /** After a replacement the matching goes on behind the address, with one link less. */
  lemma LeavesBehindMark(s: string, start: nat, stop: nat)
    requires FIRST_COLUMN <= start <= stop <= |s| && OccursAt(s, URL_START, start)
    ensures var t := s[..start] + URL_MARK + s[stop..];
      LeavesSignature(t, start + 21, LinksBefore(t, start + 21)) == LeavesSignature(s, stop, LinksBefore(s, start))
  {
    hide OccursAt, LeavesSignature, LinksBefore;
    var t := s[..start] + URL_MARK + s[stop..];
    forall j: nat | j < start + 22 ensures OccursAt(t, URL_START, j) <==> j < start && OccursAt(s, URL_START, j) {
      LinksAtMark(s, start, stop, j);
    }
    SameLinksBefore(s, t, start);
    NoLinksSince(t, start, start + 21);
    MarkHasNoLink(s, start, stop);
    if OccursAt(t, SIGNATURE, start + 21) { SignatureAt(t, start + 21); }
    LeavesStep(t, start + 21, LinksBefore(t, start + 21));
    LeavesInSuffix(t, s, start + 22, stop, LinksBefore(s, start));
  }

  ghost predicate HasSignature(s: string, from: nat, end: nat) {
    exists q: nat :: from <= q < end && OccursAt(s, SIGNATURE, q)
  }

  /** A replacement neither removes nor adds a signature among those passed by. */
  lemma PassedSignaturesStay(s: string, pos: nat, q: nat, start: nat, stop: nat, k: nat)
    requires pos <= |s| && NoSignedLinkBefore(s, pos) && q == Locate(s, SIGNATURE, pos)
    requires FIRST_COLUMN <= start <= q && q <= stop <= |s| && OccursAt(s, URL_START, start)
    ensures HasSignature(s[..start] + URL_MARK + s[stop..], k, start + 21) <==> HasSignature(s, k, pos)
  {
    hide OccursAt, Locate;
    var t := s[..start] + URL_MARK + s[stop..];
    UrlMarkAt(s, start, stop);
    LinkStartsWithH(s, start);
    if HasSignature(t, k, start + 21) {
      var j: nat :| k <= j < start + 21 && OccursAt(t, SIGNATURE, j);
      SignatureAt(t, j);
      OccursInPrefix(s, t, start, SIGNATURE, j);
    }
    if HasSignature(s, k, pos) {
      var j: nat :| k <= j < pos && OccursAt(s, SIGNATURE, j);
      SignatureAt(s, j);
      OccursInPrefix(s, t, start, SIGNATURE, j);
    }
  }

  /** From any point of the filter on, a signature is left exactly if one was passed by already or the
      matching leaves one. */
  lemma {:induction false} SignatureStaysExactly(s: string, pos: nat, k: nat)
    requires k <= pos <= |s| && k < FIRST_COLUMN && NoSignedLinkBefore(s, pos)
    ensures var r := LinksHidden(s, pos);
      HasSignature(r, k, |r|) <==> HasSignature(s, k, pos) || LeavesSignature(s, pos, LinksBefore(s, pos))
    decreases |s| - pos
  {
    hide OccursAt, NearestLink, Locate, LinksHidden, UrlEnd, NoSignedLinkBefore, LeavesSignature, LinksBefore,
         HasSignature;
    var q := Locate(s, SIGNATURE, pos);
    LinkStep(s, pos, q);
    CleanUpTo(s, pos, q);
    SkipToSignature(s, pos, q);
    if q == |s| {
      NothingLeaves(s, LinksBefore(s, q));
      NoneSince(s, k, pos, q);
    } else {
      LeavesStep(s, q, LinksBefore(s, q));
      NoLinkInSignature(s, q);
      NoLinksSince(s, q, q + 1);
      NearestCounts(s, q);
      match NearestLink(s, q)
      case NoLink =>
        SignatureStaysExactly(s, q + 1, k);
        HereIsOne(s, k, q);
      case LinkAt(start) =>
        var stop := UrlEnd(s, q);
        var t := s[..start] + URL_MARK + s[stop..];
        MarkKeepsClean(s, start, stop, q);
        SignatureStaysExactly(t, start + 21, k);
        PassedSignaturesStay(s, pos, q, start, stop, k);
        LeavesBehindMark(s, start, stop);
    }
  }

  lemma NoneSince(s: string, k: nat, m: nat, n: nat)
    requires m <= n && forall j: nat :: m <= j < n ==> !OccursAt(s, SIGNATURE, j)
    ensures HasSignature(s, k, n) <==> HasSignature(s, k, m)
  {
    hide OccursAt;
  }

  lemma HereIsOne(s: string, k: nat, q: nat)
    requires k <= q && OccursAt(s, SIGNATURE, q)
    ensures HasSignature(s, k, q + 1)
  {
    hide OccursAt;
  }

  // ----- the law

  /** A link, in any column, in front of a signature. */
  ghost predicate HasSignedLink(s: string) {
    exists k: nat, q: nat :: k <= q && OccursAt(s, URL_START, k) && OccursAt(s, SIGNATURE, q)
  }

  /** A link begins in the first columns, and behind it a signature finds no other link. */
  predicate FirstLinkStaysSigned(s: string) {
    exists k :: 0 <= k < FIRST_COLUMN && OccursAt(s, URL_START, k) && k <= |s| && LeavesSignature(s, k, 0)
  }

  /** Nothing in front of a link in the first columns is hidden. */
  lemma {:induction false} FromTheFirstLink(s: string, pos: nat, k: nat)
    requires pos <= k <= |s| && k < FIRST_COLUMN
    ensures LinksHidden(s, pos) == LinksHidden(s, k)
    decreases k - pos
  {
    hide OccursAt, NearestLink, LinksHidden, UrlEnd;
    if pos < k {
      LinkStep(s, pos, Locate(s, SIGNATURE, pos));
      if OccursAt(s, SIGNATURE, pos) {
        assert NearestLink(s, pos).NoLink?;
      } else {
        LinkStep(s, pos + 1, Locate(s, SIGNATURE, pos + 1));
      }
      FromTheFirstLink(s, pos + 1, k);
    }
  }

  /** No signed link is left, in any column, exactly if the link in the first columns, should there be one,
      keeps no signature of its own. */
  lemma NoSignedLinkExactly(s: string)
    ensures !HasSignedLink(LinksHidden(s, 0)) <==> !FirstLinkStaysSigned(s)
  {
    hide OccursAt, LinksHidden, LeavesSignature, HasSignature;
    var r := LinksHidden(s, 0);
    NoSignedLinkSurvives(s, 0);
    forall k: nat | k < FIRST_COLUMN
      ensures OccursAt(r, URL_START, k) <==> OccursAt(s, URL_START, k)
      ensures OccursAt(s, URL_START, k) ==> k <= |s| && (HasSignature(r, k, |r|) <==> LeavesSignature(s, k, 0))
    {
      FirstColumnsStay(s, 0, k);
      if OccursAt(s, URL_START, k) {
        LinkStartsWithH(s, k);
        FromTheFirstLink(s, 0, k);
        SignatureStaysExactly(s, k, k);
        NoneBefore(s, k);
      }
    }
    SignedInFirstColumns(r);
  }

  lemma NoneBefore(s: string, k: nat)
    ensures !HasSignature(s, k, k)
  {
  }

  lemma SignedInFirstColumns(r: string)
    requires NoSignedLink(r)
    ensures HasSignedLink(r) <==>
            exists k: nat :: k < FIRST_COLUMN && OccursAt(r, URL_START, k) && HasSignature(r, k, |r|)
  {
    hide OccursAt;
    forall q: nat | OccursAt(r, SIGNATURE, q) ensures q < |r| {
      SignatureAt(r, q);
    }
  }

  /** A line without a link in the first columns keeps no signed link at all. */
  lemma NoFirstLinkNoSignedLink(s: string)
    requires forall k: nat :: k < FIRST_COLUMN ==> !OccursAt(s, URL_START, k)
    ensures !HasSignedLink(LinksHidden(s, 0))
  {
    hide OccursAt, LinksHidden, LeavesSignature;
    NoSignedLinkExactly(s);
  }

  /** A line that begins with its only link stays as it is, signature and all. */
  lemma LinkInFirstColumnStays(s: string, q: nat)
    requires OccursAt(s, URL_START, 0) && forall k: nat :: 0 < k ==> !OccursAt(s, URL_START, k)
    requires OccursAt(s, SIGNATURE, q)
    ensures LinksHidden(s, 0) == s && HasSignedLink(LinksHidden(s, 0))
  {
    hide OccursAt, LinksHidden;
    NoSignedLinkIsUntouched(s, 0);
  }

  lemma SignedLinkStays()
    ensures HasSignedLink(LinksHidden("https://a?X-Amz-b", 0))
  {
    hide LinksHidden;
    var line := "https://a?X-Amz-b";
    assert line[0..8] == URL_START && line[10..16] == SIGNATURE;
    forall k: nat | 0 < k ensures !OccursAt(line, URL_START, k) {
      if k + 8 <= |line| {
        assert line[k] != 'h' && line[k..k + 8][0] == line[k];
      }
    }
    LinkInFirstColumnStays(line, 10);
  }
}
