/**
 The code buffer and its emitters (MprBuf as src/compiler/ecModuleWrite.c uses
 it: reserveRoom and the ecEncode routines on bytes, numbers and blocks).
 */
module CodeBuffer {
  import opened Bytes
  import opened NumberCodec

  const CODE_BUFSIZE: nat := 4096  // EC_CODE_BUFSIZE

  /** The buffer after four bytes of it are replaced. */
  function Patched(code: seq<byte>, offset: nat, word: seq<byte>): (r: seq<byte>)
    requires |word| == 4 && offset + 4 <= |code|
    ensures |r| == |code| && r[offset..offset + 4] == word
    ensures forall i :: 0 <= i < |r| && !(offset <= i < offset + 4) ==> r[i] == code[i]
  {
    code[..offset] + word + code[offset + 4..]
  }

  class Buffer {
    var data: array<byte>
    var end: nat
    var growBy: nat

    ghost predicate Valid()
      reads this
    {
      end <= data.Length && growBy >= NUM_ROOM
    }

    ghost function Contents(): seq<byte>
      requires Valid()
      reads this, data
    {
      data[..end]
    }

    constructor ()
      ensures Valid() && Contents() == [] && fresh(data)
    {
      data := new byte[CODE_BUFSIZE];
      end, growBy := 0, CODE_BUFSIZE;
    }

    /** mprGrowBuf: a larger copy; the old one stays as it was. */
    method Grow(need: nat)
      requires Valid()
      modifies this`data
      ensures Valid() && fresh(data) && Contents() == old(Contents())
      ensures data.Length == old(data.Length) + if need > growBy then need else growBy
    {
      var grown := new byte[data.Length + if need > growBy then need else growBy];
      forall i | 0 <= i < end {
        grown[i] := data[i];
      }
      assert grown[..end] == data[..end];
      data := grown;
    }

    /** reserveRoom, for the few bytes of a number: grows once. */
    method ReserveRoom(room: nat)
      requires Valid() && room <= NUM_ROOM
      modifies this`data
      ensures Valid() && Contents() == old(Contents()) && end + room <= data.Length
      ensures data == old(data) || fresh(data)
    {
      if data.Length - end < room {
        Grow(0);
      }
    }

    method EncodeByte(value: byte)
      requires Valid()
      modifies this, data
      ensures Valid() && Contents() == old(Contents()) + [value]
      ensures data == old(data) || fresh(data)
    {
      ReserveRoom(1);
      data[end] := value;
      end := end + 1;
    }

    method EncodeNum(number: int64)
      requires Valid()
      modifies this, data
      ensures Valid() && Contents() == old(Contents()) + NumberCodec.EncodeNum(number)
      ensures data == old(data) || fresh(data)
    {
      hide NumberCodec.EncodeNum;
      ReserveRoom(NUM_ROOM);
      EncodedLength(number);
      ghost var was := data[..end];
      var len := EjsEncodeNum(data, end, number);
      assert data[..end] == was;
      assert data[..end + len] == data[..end] + data[end..end + len];
      end := end + len;
    }

    /** ejsEncodeInt32: four bytes at an offset inside the buffer, cleared and then encoded. */
    method EncodeWordAt(offset: nat, number: int)
      requires Valid() && Abs(number) <= ENCODE_MAX_WORD && offset + 4 <= data.Length
      modifies data
      ensures data[offset..offset + 4] == EncodeWord(number)
      ensures forall i :: 0 <= i < data.Length && !(offset <= i < offset + 4) ==> data[i] == old(data[i])
    {
      hide NumberCodec.EncodeNum;
      WordLength(number);
      forall i | offset <= i < offset + 4 {
        data[i] := 0;
      }
      var len := EjsEncodeNum(data, offset, number);
      assert data[offset..offset + 4] == data[offset..offset + len] + data[offset + len..offset + 4];
      assert data[offset + len..offset + 4] == seq(4 - len, i => 0);
    }

    /** ecEncodeInt32: exactly four bytes. */
    method EncodeInt32(number: int)
      requires Valid() && Abs(number) <= ENCODE_MAX_WORD
      modifies this, data
      ensures Valid() && Contents() == old(Contents()) + EncodeWord(number)
      ensures data == old(data) || fresh(data)
    {
      hide EncodeWord;
      ReserveRoom(4);
      ghost var was := data[..end];
      EncodeWordAt(end, number);
      assert data[..end] == was;
      assert data[..end + 4] == data[..end] + data[end..end + 4];
      end := end + 4;
    }

    /**
     ecEncodeInt32AtPos: fails on a word that is too large, and else replaces
     four bytes of what was emitted, however often the buffer grew since.
     */
    method EncodeInt32AtPos(offset: nat, value: int) returns (ok: bool)
      requires Valid() && offset + 4 <= end
      modifies data
      ensures Valid() && ok == (Abs(value) <= ENCODE_MAX_WORD)
      ensures Contents() == if ok then Patched(old(Contents()), offset, EncodeWord(value)) else old(Contents())
    {
      hide EncodeWord;
      ok := Abs(value) <= ENCODE_MAX_WORD;
      if ok {
        ghost var was := data[..end];
        EncodeWordAt(offset, value);
        assert data[..end] == was[..offset] + data[offset..offset + 4] + was[offset + 4..];
      }
    }

    /** ecEncodeBlock: grows as often as it takes. */
    method EncodeBlock(block: seq<byte>)
      requires Valid()
      modifies this, data
      ensures Valid() && Contents() == old(Contents()) + block
      ensures data == old(data) || fresh(data)
    {
      var done := 0;
      while done < |block|
        invariant Valid() && done <= |block| && Contents() == old(Contents()) + block[..done]
        invariant data == old(data) || fresh(data)
      {
        if end == data.Length {
          Grow(|block| - done);
        }
        assert block[..done] + [block[done]] == block[..done + 1];
        EncodeByte(block[done]);
        done := done + 1;
      }
    }
  }
}
