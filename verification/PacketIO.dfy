/**
 * PacketReader and PacketWriter of protocol.hpp: a packet with a read head, and a packet being built.
 */
module PacketIO {
  import opened Bytes
  import C = Codec

  class PacketReader {
    const pac: seq<Byte>
    var readHead: nat

    constructor (pac: seq<Byte>, start: nat)
      ensures this.pac == pac && readHead == start
    {
      this.pac := pac;
      readHead := start;
    }

    method GetByte() returns (b: Byte)
      requires readHead < |pac|
      modifies this`readHead
      ensures b == pac[old(readHead)] && readHead == old(readHead) + 1
    {
      b := pac[readHead];
      readHead := readHead + 1;
    }

    method GetString() returns (s: seq<Byte>)
      requires C.GetString(pac, readHead).Some?
      modifies this`readHead
      ensures C.GetString(pac, old(readHead)) == Some(C.Parsed(s, readHead))
    {
      s := [];
      assert forall t: seq<Byte> :: [] + t == t;
      while true
        invariant C.GetString(pac, readHead).Some?
        invariant var rest := C.GetString(pac, readHead).value;
                  C.GetString(pac, old(readHead)) == Some(C.Parsed(s + rest.value, rest.to))
        decreases |pac| - readHead
      {
        var c := GetByte();
        if c == 0 {
          assert s + [] == s;
          break;
        }
        ghost var rest := C.GetString(pac, readHead).value.value;
        assert s + ([c] + rest) == s + [c] + rest;
        s := s + [c];
      }
    }

    method GetNumber(width: nat) returns (n: nat)
      modifies this`readHead
      ensures C.GetNumber(pac, old(readHead), width) == C.Parsed(n, readHead)
    {
      if readHead + width > |pac| {
        return 0;
      }
      n := FromLittleEndian(pac[readHead..readHead + width]);
      readHead := readHead + width;
    }
  }

  class PacketWriter {
    var sofar: seq<Byte>

    constructor ()
      ensures sofar == []
    {
      sofar := [];
    }

    method Clear()
      modifies this
      ensures sofar == []
    {
      sofar := [];
    }

    method WriteByte(b: Byte)
      modifies this
      ensures sofar == old(sofar) + [b]
    {
      sofar := sofar + [b];
    }

    method WriteString(s: seq<Byte>)
      modifies this
      ensures sofar == old(sofar) + C.EncodeString(s)
    {
      sofar := sofar + s;
      sofar := sofar + [0];
    }

    // The loop of write_number over the bytes memcpy produced.
    method WriteBytes(bytes: seq<Byte>)
      modifies this
      ensures sofar == old(sofar) + bytes
    {
      var i := 0;
      while i < |bytes|
        invariant 0 <= i <= |bytes|
        invariant sofar == old(sofar) + bytes[..i]
      {
        WriteByte(bytes[i]);
        assert bytes[..i + 1] == bytes[..i] + [bytes[i]];
        i := i + 1;
      }
      assert bytes[..i] == bytes;
    }

    method WriteNumber(n: nat, width: nat)
      modifies this
      ensures sofar == old(sofar) + LittleEndian(n, width)
    {
      WriteBytes(LittleEndian(n, width));
    }
  }
}
