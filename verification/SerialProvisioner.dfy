/** The Improv parser and printer as they run: a fixed buffer filled byte by byte, a checksum loop,
    and packets assembled in place. */
module SerialProvisioner {
  import opened Bytes
  import opened ImprovProtocol

  /** checksum() */
  method ComputeChecksum(data: array<Byte>, length: nat) returns (result: Byte)
    requires length <= data.Length
    ensures result == Checksum(data[..length])
  {
    result := 0;
    for index := 0 to length
      invariant result == Checksum(data[..index])
    {
      assert data[..index + 1][..index] == data[..index];
      result := (result as nat + data[index] as nat) % 256;
    }
  }

  class Parser {
    const bytes: array<Byte>
    var length: nat

    ghost predicate Valid()
      reads this, bytes
    {
      && bytes.Length == CAPACITY && length <= CAPACITY
      && (forall i :: 0 <= i < length && i < |HEADER| ==> bytes[i] == HEADER[i])
    }

    ghost function Contents(): seq<Byte>
      reads this, bytes
      requires length <= bytes.Length
    {
      bytes[..length]
    }

    constructor ()
      ensures Valid() && Contents() == [] && fresh(bytes)
    {
      bytes := new Byte[CAPACITY](_ => 0);
      length := 0;
    }

    /** process_byte: one step of the parser; a completed packet is handed out. */
    method ProcessByte(b: Byte, headerSize: nat) returns (out: OptPacket)
      requires Valid()
      modifies this`length, bytes
      ensures Valid()
      ensures Fed(Contents(), out) == Feed(old(Contents()), b, headerSize)
    {
      if length == 0 && b != HEADER[0] {
        return NoPacket;
      }
      if length < |HEADER| && b != HEADER[length] {
        length := if b == HEADER[0] then 1 else 0;
        assert b == HEADER[0] ==> Contents() == [HEADER[0]];
        return NoPacket;
      }
      if length >= bytes.Length {
        length := 0;
        return NoPacket;
      }
      bytes[length] := b;
      length := length + 1;
      assert Contents() == old(Contents()) + [b];
      if length == headerSize {
        return NoPacket;
      }
      if length == headerSize + 1 && b != PROTOCOL_VERSION {
        length := 0;
        return NoPacket;
      }
      if length < 9 {
        return NoPacket;
      }
      var packetLength := 10 + bytes[8] as nat;
      // The longest packet a length byte can announce just fits, so the test for a larger one never fires.
      if packetLength > bytes.Length {
        assert false;
      }
      if length == packetLength {
        out := Packet(bytes[..length]);
        length := 0;
        return;
      }
      return NoPacket;
    }
  }

  /** send_packet: nothing is sent for more data than a length byte can count. */
  method SendPacket(kind: Byte, data: seq<Byte>) returns (sent: OptPacket)
    ensures sent == if |data| > MAX_DATA then NoPacket else Packet(Frame(kind, data))
  {
    if |data| > MAX_DATA {
      return NoPacket;
    }
    var packet := new Byte[CAPACITY](_ => 0);
    forall i | 0 <= i < |HEADER| {
      packet[i] := HEADER[i];
    }
    packet[6] := PROTOCOL_VERSION;
    packet[7] := kind;
    packet[8] := |data|;
    forall i | 0 <= i < |data| {
      packet[9 + i] := data[i];
    }
    var packetLength := 10 + |data|;
    assert packet[..packetLength - 1] == FrameBody(kind, data);
    var sum := ComputeChecksum(packet, packetLength - 1);
    packet[packetLength - 1] := sum;
    assert packet[..packetLength] == Frame(kind, data);
    return Packet(packet[..packetLength]);
  }

  /** send_rpc_result: the values are appended one by one, then the length is filled in. */
  method SendRpcResult(command: Byte, values: seq<seq<Byte>>) returns (sent: OptPacket)
    ensures sent == if |ResultData(command, values)| > MAX_DATA then NoPacket
                    else Packet(Frame(4, ResultData(command, values)))
  {
    var result: seq<Byte> := [command, 0];
    for i := 0 to |values|
      invariant result == [command, 0] + EncodeValues(values[..i])
    {
      assert values[..i + 1][..i] == values[..i];
      var valueLength := if |values[i]| <= MAX_DATA then |values[i]| else MAX_DATA;
      result := result + [valueLength] + values[i][..valueLength];
    }
    assert values[..|values|] == values;
    result := result[1 := (|result| - 2) % 256];
    assert result == ResultData(command, values);
    sent := SendPacket(TYPE_RPC_RESULT, result);
  }
}
