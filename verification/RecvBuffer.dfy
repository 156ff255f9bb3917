/** The receive buffer: a flat array with a read and a write cursor, compacted in place. */
module RecvBuffers {
  import opened Bytes

  class RecvBuffer {
    const buffer: array<byte>
    var readPos: int
    var writePos: int

    ghost predicate Valid()
      reads this
    {
      0 <= readPos <= writePos <= buffer.Length
    }

    /** The bytes received and not yet handed over: what the two cursors stand for. */
    ghost function Unread(): bytes
      requires Valid()
      reads this, buffer
    {
      buffer[readPos..writePos]
    }

    function DataSize(): int
      reads this
    {
      writePos - readPos
    }

    function FreeSize(): int
      reads this
    {
      buffer.Length - writePos
    }

    constructor (bufferSize: nat)
      ensures Valid() && readPos == 0 && Unread() == [] && fresh(buffer) && buffer.Length == bufferSize
    {
      buffer := new byte[bufferSize];
      readPos, writePos := 0, 0;
    }

    /** Array.Copy onto the front of the same array: source and target may overlap. */
    method Clean()
      requires Valid()
      modifies this, buffer
      ensures Valid() && readPos == 0
      ensures Unread() == old(Unread())
      ensures FreeSize() == buffer.Length - DataSize()
    {
      var dataSize := DataSize();
      if dataSize == 0 {
        readPos := 0;
        writePos := 0;
      } else {
        forall i | 0 <= i < dataSize {
          buffer[i] := buffer[readPos + i];
        }
        readPos := 0;
        writePos := dataSize;
      }
    }

    /** There is no lower bound on the argument: a negative one rewinds, and may rewind too far. */
    method OnRead(numOfBytes: int) returns (ok: bool)
      requires Valid()
      modifies this`readPos
      ensures ok <==> numOfBytes <= old(DataSize())
      ensures readPos == old(readPos) + if ok then numOfBytes else 0
      ensures ok ==> (Valid() <==> -old(readPos) <= numOfBytes)
      ensures ok && numOfBytes >= 0 ==> Valid() && Unread() == old(Unread())[numOfBytes..]
      ensures !ok ==> Valid() && Unread() == old(Unread())
    {
      if numOfBytes > DataSize() {
        return false;
      }
      readPos := readPos + numOfBytes;
      return true;
    }

    /** Takes in the bytes that the socket put behind the write cursor. */
    method OnWrite(numOfBytes: int) returns (ok: bool)
      requires Valid()
      modifies this`writePos
      ensures Valid()
      ensures ok <==> 0 <= numOfBytes <= old(FreeSize())
      ensures ok ==> Unread() == old(Unread()) + buffer[old(writePos)..old(writePos) + numOfBytes]
      ensures !ok ==> Unread() == old(Unread())
      ensures writePos == old(writePos) + if ok then numOfBytes else 0
    {
      if numOfBytes > FreeSize() || numOfBytes < 0 {
        return false;
      }
      writePos := writePos + numOfBytes;
      return true;
    }
  }
}
