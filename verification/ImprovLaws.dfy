/** What the Improv parser does with whole byte streams. */
module ImprovLaws {
  import opened Bytes
  import opened ImprovProtocol

  // ----- running in pieces

  lemma {:induction false} RunConcat(state: seq<Byte>, a: seq<Byte>, b: seq<Byte>, headerSize: nat)
    ensures var first := Run(state, a, headerSize);
      var second := Run(first.state, b, headerSize);
      Run(state, a + b, headerSize) == Parse(second.state, first.packets + second.packets)
  {
    hide Feed;
    if b == [] {
      assert a + b == a;
    } else {
      assert (a + b)[..|a + b| - 1] == a + b[..|b| - 1];
      RunConcat(state, a, b[..|b| - 1], headerSize);
    }
  }

  // ----- scanning for the header

  predicate EndsWith(s: seq<Byte>, t: seq<Byte>) {
    |t| <= |s| && s[|s| - |t|..] == t
  }

  /** The header has not occurred before the last byte. */
  predicate Scanning(stream: seq<Byte>) {
    forall k :: 0 <= k < |stream| ==> !EndsWith(stream[..k], HEADER)
  }

  /** What is held is the longest suffix of the stream that is a prefix of the header. */
  ghost predicate HoldsLongestPrefix(stream: seq<Byte>, held: seq<Byte>) {
    && |held| <= |HEADER| && held == HEADER[..|held|] && EndsWith(stream, held)
    && forall n | 0 <= n <= |HEADER| && EndsWith(stream, HEADER[..n]) :: n <= |held|
  }

  /** While scanning, the parser holds the longest beginning of the header the stream ends with:
      restarting at the first letter never loses a header. */
  lemma {:induction false} ScanningKeepsLongestPrefix(stream: seq<Byte>, headerSize: nat)
    requires Scanning(stream) && headerSize >= |HEADER|
    ensures HoldsLongestPrefix(stream, Run([], stream, headerSize).state)
    ensures Run([], stream, headerSize).packets == []
  {
    hide Feed, EndsWith, Scanning, HoldsLongestPrefix;
    if stream != [] {
      var init, b := stream[..|stream| - 1], stream[|stream| - 1];
      ScanningInit(stream);
      ScanningKeepsLongestPrefix(init, headerSize);
      var before := Run([], init, headerSize).state;
      ShorterUnlessWhole(init, before);
      StepKeepsLongestPrefix(init, before, b, headerSize);
      assert init + [b] == stream;
    } else {
      OnlyTheEmptyPrefixEndsNothing();
    }
  }

  lemma ShorterUnlessWhole(stream: seq<Byte>, held: seq<Byte>)
    requires HoldsLongestPrefix(stream, held) && !EndsWith(stream, HEADER)
    ensures |held| < |HEADER|
  {
    assert HEADER[..|HEADER|] == HEADER;
  }

  lemma ScanningInit(stream: seq<Byte>)
    requires Scanning(stream) && stream != []
    ensures Scanning(stream[..|stream| - 1]) && !EndsWith(stream[..|stream| - 1], HEADER)
  {
    var init := stream[..|stream| - 1];
    assert forall k :: 0 <= k <= |init| ==> init[..k] == stream[..k];
    assert init == stream[..|init|];
  }

  lemma OnlyTheEmptyPrefixEndsNothing()
    ensures HoldsLongestPrefix([], [])
  {
  }

  lemma SnocsAreEqual(a: seq<Byte>, x: Byte, b: seq<Byte>, y: Byte)
    ensures a + [x] == b + [y] <==> a == b && x == y
  {
    assert a + [x] == b + [y] ==> (a + [x])[|a|] == (b + [y])[|b|] && (a + [x])[..|a|] == (b + [y])[..|b|];
  }

  lemma EndsWithSnoc(s: seq<Byte>, b: Byte, n: nat)
    requires 0 < n <= |HEADER|
    ensures EndsWith(s + [b], HEADER[..n]) <==> EndsWith(s, HEADER[..n - 1]) && b == HEADER[n - 1]
  {
    var t := s + [b];
    if n <= |t| {
      var last := s[|s| - (n - 1)..];
      assert t[|t| - n..] == last + [b];
      assert HEADER[..n] == HEADER[..n - 1] + [HEADER[n - 1]];
      SnocsAreEqual(last, b, HEADER[..n - 1], HEADER[n - 1]);
    }
  }

  lemma FirstLetterOccursOnce(before: seq<Byte>, text: seq<Byte>, k: nat)
    requires |before| <= |HEADER| && before == HEADER[..|before|] == text && 0 < k < |before|
    ensures text[k] != HEADER[0]
  {
  }

  /** A prefix of the header that ends the text read so far ends the longer one the parser holds,
      which is impossible unless it is empty: the first letter occurs only once. */
  lemma NoShorterPrefix(s: seq<Byte>, before: seq<Byte>, m: nat)
    requires HoldsLongestPrefix(s, before) && m <= |HEADER| && EndsWith(s, HEADER[..m])
    ensures m == 0 || m == |before|
  {
    if 0 < m < |before| {
      assert s[|s| - m] == HEADER[..m][0] == HEADER[0];
      assert s[|s| - |before|..][|before| - m] == s[|s| - m];
      FirstLetterOccursOnce(before, s[|s| - |before|..], |before| - m);
    }
  }

  /** What one byte makes of a held prefix. */
  lemma FeedExtendsOrRestarts(before: seq<Byte>, b: Byte, headerSize: nat)
    requires |before| < |HEADER| <= headerSize && before == HEADER[..|before|]
    ensures var n := |before|;
      Feed(before, b, headerSize) ==
      Fed(if b == HEADER[n] then HEADER[..n + 1] else if b == HEADER[0] then HEADER[..1] else [], NoPacket)
  {
  }

  lemma StepKeepsLongestPrefix(s: seq<Byte>, before: seq<Byte>, b: Byte, headerSize: nat)
    requires |before| < |HEADER| <= headerSize && HoldsLongestPrefix(s, before)
    ensures Feed(before, b, headerSize).out.NoPacket?
    ensures HoldsLongestPrefix(s + [b], Feed(before, b, headerSize).state)
  {
    hide Feed, EndsWith;
    FeedExtendsOrRestarts(before, b, headerSize);
    EverythingEndsWithNothing(s);
    EverythingEndsWithNothing(s + [b]);
    EndsWithSnoc(s, b, |before| + 1);
    EndsWithSnoc(s, b, 1);
    forall n | 0 < n <= |HEADER| && EndsWith(s + [b], HEADER[..n])
      ensures n == 1 || n == |before| + 1
      ensures b == HEADER[n - 1]
    {
      EndsWithSnoc(s, b, n);
      NoShorterPrefix(s, before, n - 1);
    }
  }

  lemma EverythingEndsWithNothing(s: seq<Byte>)
    ensures EndsWith(s, HEADER[..0])
  {
  }

  // ----- delivering frames

  /** What the parser itself asks of a frame. */
  predicate Deliverable(f: seq<Byte>, headerSize: nat) {
    && 10 <= |f| <= CAPACITY && headerSize < 10 && f[..|HEADER|] == HEADER
    && |f| == 10 + f[8] as nat && f[headerSize] == PROTOCOL_VERSION
  }

  /** The parser stores every byte of a deliverable frame but the last. */
  lemma FrameByteIsStored(f: seq<Byte>, k: nat, headerSize: nat)
    requires headerSize in {TEXT_HEADER, SIZEOF_HEADER} && Deliverable(f, headerSize) && k + 1 < |f|
    ensures Feed(f[..k], f[k], headerSize) == Fed(f[..k + 1], NoPacket)
  {
    assert f[..k] + [f[k]] == f[..k + 1];
    if k < |HEADER| {
      assert f[..|HEADER|][k] == HEADER[k];
    }
  }

  lemma {:induction false} PrefixIsStored(f: seq<Byte>, k: nat, headerSize: nat)
    requires headerSize in {TEXT_HEADER, SIZEOF_HEADER} && Deliverable(f, headerSize) && k < |f|
    ensures Run([], f[..k], headerSize) == Parse(f[..k], [])
  {
    hide Feed, Deliverable;
    if k > 0 {
      PrefixIsStored(f, k - 1, headerSize);
      FrameByteIsStored(f, k - 1, headerSize);
      assert f[..k][..k - 1] == f[..k - 1];
    }
  }

  /** An idle parser delivers a deliverable frame once, byte for byte, and is idle again. */
  lemma DeliversFrame(f: seq<Byte>, headerSize: nat)
    requires headerSize in {TEXT_HEADER, SIZEOF_HEADER} && Deliverable(f, headerSize)
    ensures Run([], f, headerSize) == Parse([], [f])
  {
    hide Feed, Deliverable;
    LastByteDelivers(f, headerSize);
    PrefixIsStored(f, |f| - 1, headerSize);
    assert [] + [f] == [f];
  }

  lemma LastByteDelivers(f: seq<Byte>, headerSize: nat)
    requires headerSize in {TEXT_HEADER, SIZEOF_HEADER} && Deliverable(f, headerSize)
    ensures |f| > 0 && Feed(f[..|f| - 1], f[|f| - 1], headerSize) == Fed([], Packet(f))
  {
    assert f[..|f| - 1] + [f[|f| - 1]] == f;
  }

  /** The first byte of a frame restarts a parser that holds a part of the header. */
  lemma FirstByteRestarts(state: seq<Byte>, f: seq<Byte>, headerSize: nat)
    requires |state| < |HEADER| <= headerSize && state == HEADER[..|state|]
    requires f != [] && f[0] == HEADER[0]
    ensures Feed(state, f[0], headerSize) == Fed(f[..1], NoPacket)
  {
    assert f[..1] == [f[0]];
  }

  /** A frame makes no difference between an idle parser and one that holds a part of the header. */
  lemma FrameForgetsThePrefix(state: seq<Byte>, f: seq<Byte>, headerSize: nat)
    requires |state| < |HEADER| <= headerSize && state == HEADER[..|state|]
    requires f != [] && f[0] == HEADER[0]
    ensures Run(state, f, headerSize) == Run([], f, headerSize)
  {
    hide Feed;
    FirstByteRestarts(state, f, headerSize);
    FirstByteRestarts([], f, headerSize);
    assert f[..1] == [f[0]] && f == f[..1] + f[1..];
    RunOfOne(state, f[0], headerSize);
    RunOfOne([], f[0], headerSize);
    RunConcat(state, f[..1], f[1..], headerSize);
    RunConcat([], f[..1], f[1..], headerSize);
  }

  lemma NoiseLeavesAPrefix(noise: seq<Byte>, headerSize: nat)
    requires |HEADER| <= headerSize && Scanning(noise) && !EndsWith(noise, HEADER)
    ensures var p := Run([], noise, headerSize);
      p.packets == [] && |p.state| < |HEADER| && p.state == HEADER[..|p.state|]
  {
    ScanningKeepsLongestPrefix(noise, headerSize);
    ShorterUnlessWhole(noise, Run([], noise, headerSize).state);
  }

  /** Line noise in front of a frame does no harm: as long as it does not hold a whole header, whatever
      beginning of one it ends with, exactly the frame is delivered. */
  lemma NoiseHidesNoFrame(noise: seq<Byte>, f: seq<Byte>, headerSize: nat)
    requires headerSize in {TEXT_HEADER, SIZEOF_HEADER} && Deliverable(f, headerSize)
    requires Scanning(noise) && !EndsWith(noise, HEADER)
    ensures Run([], noise + f, headerSize) == Parse([], [f])
  {
    assert f[0] == f[..|HEADER|][0] == HEADER[0];
    hide Feed, EndsWith, Scanning, Deliverable, Run;
    NoiseLeavesAPrefix(noise, headerSize);
    RunConcat([], noise, f, headerSize);
    FrameForgetsThePrefix(Run([], noise, headerSize).state, f, headerSize);
    DeliversFrame(f, headerSize);
    assert [] + [f] == [f];
  }

  lemma RunOfOne(state: seq<Byte>, b: Byte, headerSize: nat)
    requires Feed(state, b, headerSize).out.NoPacket?
    ensures Run(state, [b], headerSize) == Parse(Feed(state, b, headerSize).state, [])
  {
    hide Feed;
    assert [b][..0] == [];
    assert Run(state, [], headerSize) == Parse(state, []);
  }

  /** After any bytes that leave the parser idle, the next frame is delivered on top of what came before. */
  lemma IdleThenFrame(before: seq<Byte>, f: seq<Byte>, headerSize: nat)
    requires headerSize in {TEXT_HEADER, SIZEOF_HEADER} && Deliverable(f, headerSize)
    requires Run([], before, headerSize).state == []
    ensures Run([], before + f, headerSize) == Parse([], Run([], before, headerSize).packets + [f])
  {
    hide Feed, Deliverable;
    RunConcat([], before, f, headerSize);
    DeliversFrame(f, headerSize);
  }

  lemma FrameIsDeliverable(kind: Byte, data: seq<Byte>, headerSize: nat)
    requires |data| <= MAX_DATA
    ensures headerSize == TEXT_HEADER ==> Deliverable(Frame(kind, data), headerSize)
    ensures headerSize == SIZEOF_HEADER ==>
              (Deliverable(Frame(kind, data), headerSize) <==> kind == PROTOCOL_VERSION)
  {
  }

  function Flatten(frames: seq<seq<Byte>>): seq<Byte> {
    if frames == [] then [] else Flatten(frames[..|frames| - 1]) + frames[|frames| - 1]
  }

  /** With the version test on the version byte, any frames sent back to back are delivered, in
      order and unchanged. */
  lemma {:induction false} FramesRoundTrip(frames: seq<seq<Byte>>)
    requires forall f | f in frames :: Deliverable(f, TEXT_HEADER)
    ensures Run([], Flatten(frames), TEXT_HEADER) == Parse([], frames)
  {
    if frames != [] {
      var init, last := frames[..|frames| - 1], frames[|frames| - 1];
      FramesRoundTrip(init);
      RunConcat([], Flatten(init), last, TEXT_HEADER);
      DeliversFrame(last, TEXT_HEADER);
    }
  }

  /** What send_packet prints, the parser delivers and process_packet accepts. */
  lemma SendThenReceive(kind: Byte, data: seq<Byte>)
    requires |data| <= MAX_DATA
    ensures Run([], Frame(kind, data), TEXT_HEADER) == Parse([], [Frame(kind, data)])
    ensures ProcessPacket(Frame(kind, data)) == if kind == TYPE_RPC then Rpc(data) else IgnorePacket
  {
    FrameIsDeliverable(kind, data, TEXT_HEADER);
    DeliversFrame(Frame(kind, data), TEXT_HEADER);
    var f := Frame(kind, data);
    assert f[..|f| - 1] == FrameBody(kind, data);
    assert f[9..9 + f[8] as nat] == data;
  }

  // ----- corrupted frames

  function Sum(s: seq<Byte>): nat {
    if s == [] then 0 else Sum(s[..|s| - 1]) + s[|s| - 1] as nat
  }

  lemma AddInBytes(a: nat, b: nat)
    ensures (a % 256 + b) % 256 == (a + b) % 256
  {
  }

  lemma {:induction false} ChecksumIsSum(s: seq<Byte>)
    ensures Checksum(s) == Sum(s) % 256
  {
    if s != [] {
      ChecksumIsSum(s[..|s| - 1]);
      AddInBytes(Sum(s[..|s| - 1]), s[|s| - 1] as nat);
    }
  }

  lemma {:induction false} SumUpdate(s: seq<Byte>, i: nat, v: Byte)
    requires i < |s|
    ensures Sum(s[i := v]) == Sum(s) + v as int - s[i] as int
  {
    var n := |s| - 1;
    if i == n {
      assert s[i := v][..n] == s[..n];
    } else {
      assert s[i := v][..n] == s[..n][i := v];
      SumUpdate(s[..n], i, v);
    }
  }

  lemma ChangedByteChangesChecksum(s: seq<Byte>, i: nat, v: Byte)
    requires i < |s| && v != s[i]
    ensures Checksum(s[i := v]) != Checksum(s)
  {
    hide Checksum, Sum;
    ChecksumIsSum(s);
    ChecksumIsSum(s[i := v]);
    SumUpdate(s, i, v);
  }

  /** Any single changed type, data or checksum byte still arrives as one packet, and is rejected. */
  lemma SingleByteErrorIsRejected(kind: Byte, data: seq<Byte>, i: nat, v: Byte)
    requires |data| <= MAX_DATA
    requires i == 7 || 9 <= i < |Frame(kind, data)|
    requires v != Frame(kind, data)[i]
    ensures var g := Frame(kind, data)[i := v];
      Run([], g, TEXT_HEADER) == Parse([], [g]) && ProcessPacket(g) == RejectPacket
  {
    var f := Frame(kind, data);
    var g, n := f[i := v], |f| - 1;
    FrameIsDeliverable(kind, data, TEXT_HEADER);
    assert g[..|HEADER|] == f[..|HEADER|];
    DeliversFrame(g, TEXT_HEADER);
    assert f[..n] == FrameBody(kind, data);
    if i < n {
      ChangedByteChangesChecksum(f[..n], i, v);
      assert g[..n] == f[..n][i := v];
    } else {
      assert g[..n] == f[..n];
    }
  }

  // ----- the code as written

  /** With the version test on byte 7, whatever is delivered or half received has type 1. */
  lemma {:induction false} OnlyTypeOneSurvives(stream: seq<Byte>)
    ensures var parse := Run([], stream, SIZEOF_HEADER);
      && (|parse.state| >= 8 ==> parse.state[7] == PROTOCOL_VERSION)
      && (forall p | p in parse.packets :: |p| >= 10 && p[7] == PROTOCOL_VERSION)
  {
    if stream != [] {
      OnlyTypeOneSurvives(stream[..|stream| - 1]);
    }
  }

  /** No byte stream ever reaches process_rpc. */
  lemma RpcIsUnreachable(stream: seq<Byte>)
    ensures forall p | p in Run([], stream, SIZEOF_HEADER).packets :: !ProcessPacket(p).Rpc?
  {
    OnlyTypeOneSurvives(stream);
  }

  /** Of the frames send_packet prints, exactly those of type 1 come back. */
  lemma FrameSurvivesExactly(kind: Byte, data: seq<Byte>)
    requires |data| <= MAX_DATA
    ensures Frame(kind, data) in Run([], Frame(kind, data), SIZEOF_HEADER).packets <==> kind == PROTOCOL_VERSION
  {
    OnlyTypeOneSurvives(Frame(kind, data));
    FrameIsDeliverable(kind, data, SIZEOF_HEADER);
    if kind == PROTOCOL_VERSION {
      DeliversFrame(Frame(kind, data), SIZEOF_HEADER);
    }
  }

  // ----- requests and results

  /** The settings parser accepts exactly the encodings, and decodes them. */
  lemma WifiSettingsExactly(data: seq<Byte>, ssid: seq<Byte>, password: seq<Byte>)
    ensures ParseRpc(data) == WifiSettings(ssid, password) <==>
            |ssid| + |password| + 2 <= MAX_DATA && data == EncodeWifiSettings(ssid, password)
  {
    if ParseRpc(data) == WifiSettings(ssid, password) {
      assert data == [1, |ssid| + |password| + 2, |ssid|] + ssid + [|password|] + password;
    }
    if |ssid| + |password| + 2 <= MAX_DATA && data == EncodeWifiSettings(ssid, password) {
      var k := 3 + |ssid|;
      assert data[3..k] == ssid && data[k] == |password| && data[k + 1..] == password;
    }
  }

  lemma {:induction false} DecodeAppend(data: seq<Byte>, v: seq<Byte>)
    requires |v| <= MAX_DATA && DecodeValues(data).Values?
    ensures DecodeValues(data + [|v|] + v) == Values(DecodeValues(data).values + [v])
  {
    var more := data + [|v|] + v;
    if data == [] {
      assert more[1 + more[0] as nat..] == [];
      assert more[1..1 + more[0] as nat] == v;
    } else {
      var rest := data[1 + data[0] as nat..];
      DecodeAppend(rest, v);
      assert more[1 + data[0] as nat..] == rest + [|v|] + v;
      assert more[1..1 + data[0] as nat] == data[1..1 + data[0] as nat];
    }
  }

  lemma {:induction false} ValuesRoundTrip(values: seq<seq<Byte>>)
    requires |EncodeValues(values)| <= MAX_DATA
    ensures DecodeValues(EncodeValues(values)) == Values(values)
  {
    if values != [] {
      ValuesRoundTrip(values[..|values| - 1]);
      var v := values[|values| - 1];
      DecodeAppend(EncodeValues(values[..|values| - 1]), v);
      assert values[..|values| - 1] + [v] == values;
    }
  }

  /** A result that fits a packet carries its true length and decodes to exactly its values; the
      255-byte cut never shows. */
  lemma SentResultIsFaithful(command: Byte, values: seq<seq<Byte>>)
    requires |ResultData(command, values)| <= MAX_DATA
    ensures var data := ResultData(command, values);
      data[1] as int == |data| - 2 && DecodeValues(data[2..]) == Values(values)
  {
    ValuesRoundTrip(values);
    assert ResultData(command, values)[2..] == EncodeValues(values);
  }

  // ----- the bytes on the line

  /** A frame: the text IMPROV, version 1, its type, the number of data bytes, the data, and the sum of it all. */
  lemma FrameBytes(kind: Byte, data: seq<Byte>)
    requires |data| <= 255
    ensures var front := [73, 77, 80, 82, 79, 86, 1, kind, |data|] + data;
      Frame(kind, data) == front + [Sum(front) % 256]
  {
    hide Checksum;
    var front: seq<Byte> := [73, 77, 80, 82, 79, 86, 1, kind, |data|] + data;
    assert FrameBody(kind, data) == front;
    ChecksumIsSum(front);
  }

  /** A packet is accepted exactly if its last byte is the sum of the others, it counts its data rightly and
      its type is 3; a sound packet of another type is ignored, and any other is refused. */
  lemma PacketsExactly(p: seq<Byte>)
    ensures var sound := |p| >= 10 && p[|p| - 1] as int == Sum(p[..|p| - 1]) % 256;
      && (ProcessPacket(p).Rpc? <==> sound && p[7] == 3 && 9 + p[8] as int <= |p|)
      && (ProcessPacket(p).Rpc? ==> ProcessPacket(p).data == p[9..9 + p[8] as int])
      && (ProcessPacket(p).IgnorePacket? <==> sound && p[7] != 3)
  {
    hide Checksum, Sum;
    if |p| >= 10 {
      ChecksumIsSum(p[..|p| - 1]);
    }
  }

  /** A request is one whose second byte counts the bytes behind it; the first names it. */
  lemma RequestsExactly(data: seq<Byte>)
    ensures var r, sound := ParseRpc(data), |data| >= 2 && data[1] as int == |data| - 2;
      && (r == CurrentState <==> sound && data[0] == 2) && (r == DeviceInfo <==> sound && data[0] == 3)
      && (r == WifiNetworks <==> sound && data[0] == 4)
      && (r == UnknownRpc <==> sound && (data[0] == 0 || data[0] > 4))
      && (r.WifiSettings? ==> sound && data[0] == 1)
  {
  }

  /** A value longer than 255 bytes is cut to 255, and is sent behind its length. */
  lemma ValuesAreCut(values: seq<seq<Byte>>, v: seq<Byte>)
    ensures var kept := if |v| <= 255 then v else v[..255];
      EncodeValues(values + [v]) == EncodeValues(values) + [|kept|] + kept
    ensures EncodeValues([]) == []
  {
    assert (values + [v])[..|values|] == values;
  }
}
