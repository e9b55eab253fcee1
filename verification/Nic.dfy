/** The frame buffers of eth-nic.c: how a frame is padded and closed with its CRC, and how
    a received one is checked. */
module Nic {
  import opened Crc32

  /** The bytes of a word, the least significant first. */
  function LeBytes(w: bv32): (b: seq<bv8>)
    ensures |b| == 4
  {
    [(w & 0xFF) as bv8, ((w >> 8) & 0xFF) as bv8, ((w >> 16) & 0xFF) as bv8, ((w >> 24) & 0xFF) as bv8]
  }

  lemma WordOfLeBytes(w: bv32)
    ensures WordOf(LeBytes(w)) == w
  {
  }

  /** The shortest frame without its CRC. */
  const CONTENT_MIN: nat := FRAME_SIZE_MIN - 4

  function Padded(content: seq<bv8>): (p: seq<bv8>)
    ensures |p| == if |content| < 60 then 60 else |content|
    ensures content <= p && forall k :: |content| <= k < |p| ==> p[k] == 0
  {
    if |content| < CONTENT_MIN then content + seq(CONTENT_MIN - |content|, _ => 0) else content
  }

  /** The frame that goes out for what was written into the slot. */
  function Frame(content: seq<bv8>): seq<bv8> {
    Padded(content) + LeBytes(Crc(Padded(content)))
  }

  /** What nic_tx_packet builds, nic_check_for_rx accepts. */
  lemma FrameIsAccepted(content: seq<bv8>)
    ensures Accepted(Frame(content)) && content <= Frame(content)
  {
    var p, t := Padded(content), LeBytes(Crc(Padded(content)));
    WordOfLeBytes(Crc(p));
    assert (p + t)[..|p + t| - 4] == p && (p + t)[|p + t| - 4..] == t;
  }

  method Trailer(data: seq<bv8>) returns (trailer: seq<bv8>)
    ensures trailer == LeBytes(Crc(data))
  {
    var crc := HalfByteCrc(data);
    trailer := LeBytes(crc);
  }

  class Controller {
    /** The transmit slot. */
    const txSlot: array<bv8>
    var txPointer: nat
    var nic_tx_len: nat
    /** The slot with the packet in work, if any, and the next byte to read from it. */
    var rxWorkingSlot: bool
    var rxPointer: nat

    ghost predicate Valid()
      reads this
    {
      FRAME_SIZE_MIN <= txSlot.Length < 0x1_0000 && txPointer == nic_tx_len <= txSlot.Length
    }

    /** What was written since nic_setup_tx. */
    ghost function Written(): seq<bv8>
      requires Valid()
      reads this, txSlot
    {
      txSlot[..nic_tx_len]
    }

    constructor (size: nat)
      requires FRAME_SIZE_MIN <= size < 0x1_0000
      ensures Valid() && fresh(txSlot) && txSlot.Length == size && !rxWorkingSlot
    {
      txSlot := new bv8[size];
      txPointer, nic_tx_len, rxPointer := 0, 0, 0;
      rxWorkingSlot := false;
    }

    method nic_setup_tx()
      requires Valid()
      modifies this`txPointer, this`nic_tx_len
      ensures Valid() && Written() == []
    {
      txPointer := 0;
      nic_tx_len := 0;
    }

    method nic_write_next_byte(data: bv8)
      requires Valid() && nic_tx_len < txSlot.Length
      modifies this`txPointer, this`nic_tx_len, txSlot
      ensures Valid() && Written() == old(Written()) + [data]
    {
      txSlot[txPointer] := data;
      txPointer := txPointer + 1;
      nic_tx_len := nic_tx_len + 1;
    }

    method nic_write_array(array_buffer: seq<bv8>)
      requires Valid() && nic_tx_len + |array_buffer| <= txSlot.Length
      modifies this`txPointer, this`nic_tx_len, txSlot
      ensures Valid() && Written() == old(Written()) + array_buffer
    {
      forall k | 0 <= k < |array_buffer| { txSlot[txPointer + k] := array_buffer[k]; }
      txPointer := txPointer + |array_buffer|;
      nic_tx_len := nic_tx_len + |array_buffer|;
    }

    /** A word is written over earlier bytes, the upper byte first. */
    method nic_write_tx_word_at_location(byte_address: nat, upper: bv8, lower: bv8)
      requires Valid() && byte_address + 2 <= nic_tx_len
      modifies txSlot
      ensures Valid() && Written() == old(Written())[byte_address := upper][byte_address + 1 := lower]
    {
      txSlot[byte_address] := upper;
      txSlot[byte_address + 1] := lower;
    }

    method PadFrame()
      requires Valid()
      modifies this`txPointer, this`nic_tx_len, txSlot
      ensures Valid() && Written() == Padded(old(Written()))
    {
      if nic_tx_len < FRAME_SIZE_MIN - 4 {
        var filling_bytes := FRAME_SIZE_MIN - 4 - nic_tx_len;
        forall k | 0 <= k < filling_bytes { txSlot[txPointer + k] := 0; }
        nic_tx_len := FRAME_SIZE_MIN - 4;
        txPointer := nic_tx_len;
      }
    }

    /** Pads the frame, closes it with its CRC, and hands its length to the MAC. */
    method nic_tx_packet() returns (frame_length: nat)
      requires Valid() && nic_tx_len + 4 <= txSlot.Length
      modifies this`txPointer, this`nic_tx_len, txSlot
      ensures frame_length == nic_tx_len <= txSlot.Length && txSlot[..frame_length] == Frame(old(Written()))
    {
      PadFrame();
      ghost var padded := Written();
      var trailer := Trailer(txSlot[..nic_tx_len]);
      WriteTrailer(trailer);
      nic_tx_len := nic_tx_len + 4;
      frame_length := nic_tx_len;
      assert txSlot[..frame_length] == padded + trailer;
    }

    method WriteTrailer(trailer: seq<bv8>)
      requires Valid() && nic_tx_len + 4 <= txSlot.Length && |trailer| == 4
      modifies this`txPointer, txSlot
      ensures nic_tx_len + 4 <= txSlot.Length && txSlot[..nic_tx_len] == old(txSlot[..nic_tx_len])
      ensures txSlot[nic_tx_len..nic_tx_len + 4] == trailer
    {
      txSlot[txPointer] := trailer[0];
      txPointer := txPointer + 1;
      txSlot[txPointer] := trailer[1];
      txPointer := txPointer + 1;
      txSlot[txPointer] := trailer[2];
      txPointer := txPointer + 1;
      txSlot[txPointer] := trailer[3];
    }

    /** `slot` is the packet that the MAC has ready, if `ready`. The result is its length,
        or 0: no packet, or one that is too short or has a wrong CRC and is dropped. */
    method nic_check_for_rx(ready: bool, slot: seq<bv8>) returns (rxlen: nat)
      modifies this`rxWorkingSlot, this`rxPointer
      ensures rxlen == if ready && Accepted(slot) then |slot| else 0
      ensures rxWorkingSlot <==> ready && Accepted(slot)
      ensures rxWorkingSlot ==> rxPointer == 0
    {
      rxWorkingSlot := ready;
      if !ready {
        return 0;
      }
      rxPointer := 0;
      rxlen := |slot|;
      if rxlen < FRAME_SIZE_MIN {
        rxWorkingSlot := false;
        return 0;
      }
      var received := LeWord(slot[rxlen - 4], slot[rxlen - 3], slot[rxlen - 2], slot[rxlen - 1]);
      var computed := HalfByteCrc(slot[..rxlen - 4]);
      if received != computed {
        rxWorkingSlot := false;
        return 0;
      }
    }

    method nic_rx_dump_packet()
      modifies this`rxWorkingSlot
      ensures !rxWorkingSlot
    {
      if rxWorkingSlot {
        rxWorkingSlot := false;
      }
    }
  }
}
