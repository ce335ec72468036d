/** The Improv serial framing of main/src/serial_provisioner.cpp as functions on byte sequences.
    The constant kHeader includes its terminating NUL, so sizeof(kHeader) is 7 and the version test
    lands on byte 7. The functions take that size as a parameter: 7 is the code as written, 6 the
    length of the text "IMPROV". */
module ImprovProtocol {
  import opened Bytes

  /** "IMPROV" */
  const HEADER: seq<Byte> := [73, 77, 80, 82, 79, 86]
  const PROTOCOL_VERSION: Byte := 1
  const TYPE_RPC: Byte := 3
  const TYPE_RPC_RESULT: Byte := 4
  const CAPACITY: nat := 265
  const MAX_DATA: nat := 255

  const SIZEOF_HEADER: nat := 7
  const TEXT_HEADER: nat := 6

  function Checksum(s: seq<Byte>): Byte {
    if s == [] then 0 else (Checksum(s[..|s| - 1]) + s[|s| - 1]) % 256
  }

  // ----- printing

  function FrameBody(kind: Byte, data: seq<Byte>): seq<Byte>
    requires |data| <= MAX_DATA
  {
    HEADER + [PROTOCOL_VERSION, kind, |data|] + data
  }

  function Frame(kind: Byte, data: seq<Byte>): seq<Byte>
    requires |data| <= MAX_DATA
  {
    FrameBody(kind, data) + [Checksum(FrameBody(kind, data))]
  }

  // ----- parsing, one byte at a time

  datatype OptPacket = NoPacket | Packet(bytes: seq<Byte>)
  datatype Fed = Fed(state: seq<Byte>, out: OptPacket)

  /** process_byte: `state` is the part of the buffer in use. */
  function Feed(state: seq<Byte>, b: Byte, headerSize: nat): Fed {
    if |state| == 0 && b != HEADER[0] then Fed([], NoPacket)
    else if |state| < |HEADER| && b != HEADER[|state|] then Fed(if b == HEADER[0] then [b] else [], NoPacket)
    else if |state| >= CAPACITY then Fed([], NoPacket)
    else Store(state + [b], b, headerSize)
  }

  function Store(stored: seq<Byte>, b: Byte, headerSize: nat): Fed {
    if |stored| == headerSize then Fed(stored, NoPacket)
    else if |stored| == headerSize + 1 && b != PROTOCOL_VERSION then Fed([], NoPacket)
    else if |stored| < 9 then Fed(stored, NoPacket)
    else if 10 + stored[8] as nat > CAPACITY then Fed([], NoPacket)
    else if |stored| == 10 + stored[8] as nat then Fed([], Packet(stored))
    else Fed(stored, NoPacket)
  }

  datatype Parse = Parse(state: seq<Byte>, packets: seq<seq<Byte>>)

  /** The state and the delivered packets after a stream. */
  function Run(state: seq<Byte>, stream: seq<Byte>, headerSize: nat): Parse {
    if stream == [] then Parse(state, [])
    else
      var before := Run(state, stream[..|stream| - 1], headerSize);
      var fed := Feed(before.state, stream[|stream| - 1], headerSize);
      Parse(fed.state, before.packets + if fed.out.Packet? then [fed.out.bytes] else [])
  }

  datatype Action = RejectPacket | IgnorePacket | Rpc(data: seq<Byte>)

  /** process_packet */
  function ProcessPacket(p: seq<Byte>): Action {
    if |p| < 10 || Checksum(p[..|p| - 1]) != p[|p| - 1] then RejectPacket
    else if p[7] != TYPE_RPC then IgnorePacket
    else if 9 + p[8] as nat <= |p| then Rpc(p[9..9 + p[8] as nat]) else RejectPacket
  }

  // ----- remote procedure calls

  datatype Request =
    | InvalidRpc
    | WifiSettings(ssid: seq<Byte>, password: seq<Byte>)
    | CurrentState
    | DeviceInfo
    | WifiNetworks
    | UnknownRpc

  /** process_rpc, up to the point where the request is known. */
  function ParseRpc(data: seq<Byte>): Request {
    if |data| < 2 || data[1] as int != |data| - 2 then InvalidRpc
    else match data[0]
      case 1 =>
        if |data| < 4 then InvalidRpc
        else
          var passwordIndex: nat := 3 + data[2] as nat;
          if passwordIndex >= |data| then InvalidRpc
          else if passwordIndex + 1 + data[passwordIndex] as nat != |data| then InvalidRpc
          else WifiSettings(data[3..passwordIndex], data[passwordIndex + 1..])
      case 2 => CurrentState
      case 3 => DeviceInfo
      case 4 => WifiNetworks
      case _ => UnknownRpc
  }

  /** The settings request as the protocol defines it. */
  function EncodeWifiSettings(ssid: seq<Byte>, password: seq<Byte>): seq<Byte>
    requires |ssid| + |password| + 2 <= MAX_DATA
  {
    [1, |ssid| + |password| + 2, |ssid|] + ssid + [|password|] + password
  }

  // ----- results

  /** The length-prefixed values of a result. */
  function EncodeValues(values: seq<seq<Byte>>): seq<Byte> {
    if values == [] then []
    else
      var v := values[|values| - 1];
      var kept: seq<Byte> := if |v| <= MAX_DATA then v else v[..MAX_DATA];
      EncodeValues(values[..|values| - 1]) + [|kept|] + kept
  }

  function ResultData(command: Byte, values: seq<seq<Byte>>): seq<Byte> {
    [command, |EncodeValues(values)| % 256] + EncodeValues(values)
  }

  datatype OptValues = NoValues | Values(values: seq<seq<Byte>>)

  /** Reads length-prefixed values back. */
  function DecodeValues(data: seq<Byte>): OptValues {
    if data == [] then Values([])
    else if |data| < 1 + data[0] as nat then NoValues
    else match DecodeValues(data[1 + data[0] as nat..])
      case NoValues => NoValues
      case Values(rest) => Values([data[1..1 + data[0] as nat]] + rest)
  }
}
