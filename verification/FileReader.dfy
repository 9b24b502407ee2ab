/**
  The buffered file reader (util/reader.h, ReaderBase_T; util/reader.cpp, FileReader_c): a window over a
  file that is refilled by positioned reads.
 */
module FileReader {
  import opened ByteCodec

  /** memcpy between two buffers. */
  method MemCopy(dst: array<u8>, at: nat, src: array<u8>, from: nat, n: nat)
    requires dst != src && at + n <= dst.Length && from + n <= src.Length
    modifies dst
    ensures dst[..at] == old(dst[..at]) && dst[at + n..] == old(dst[at + n..])
    ensures dst[at..at + n] == src[from..from + n]
  {
    forall i | 0 <= i < n {
      dst[at + i] := src[from + i];
    }
  }

  class FileReader {
    const file: seq<u8>       // what the file descriptor gives access to
    const size: nat           // capacity of the window (m_tSize)
    const buf: array<u8>      // the window (m_pBuf)
    var used: nat             // bytes of the window that are filled (m_tUsed)
    var ptr: nat              // next byte of the window (m_tPtr)
    var filePos: nat          // file position of the window (m_iFilePos)
    var error: bool           // m_bError

    ghost predicate Valid()
      reads this, buf
    {
      && size >= 1 && buf.Length == size
      && ptr <= used <= size
      && (used > 0 ==> filePos + used <= |file| && buf[..used] == file[filePos..filePos + used])
    }

    /** The position of the next byte to be read. */
    function Pos(): nat
      reads this
    {
      filePos + ptr
    }

    constructor (file: seq<u8>, size: nat)
      requires size >= 1
      ensures Valid() && this.file == file && this.size == size && Pos() == 0 && !error && fresh(buf)
    {
      this.file, this.size := file, size;
      buf := new u8[size](_ => 0);
      used, ptr, filePos, error := 0, 0, 0, false;
    }

    /** A positioned read: as many bytes as fit into the window, fewer only at the end of the file. */
    method Pread(pos: nat) returns (n: nat)
      requires buf.Length == size
      modifies buf
      ensures n == if pos >= |file| then 0 else if |file| - pos < size then |file| - pos else size
      ensures n > 0 ==> buf[..n] == file[pos..pos + n]
    {
      n := if pos >= |file| then 0 else if |file| - pos < size then |file| - pos else size;
      forall i | 0 <= i < n {
        buf[i] := file[pos + i];
      }
    }

    /** Moves the window to the current position. Fails, and sets the error, exactly at or past the end of the file. */
    method DoRefill() returns (ok: bool)
      requires Valid()
      modifies this, buf
      ensures Valid() && Pos() == old(Pos())
      ensures ptr <= used <= size
      ensures ok <==> old(Pos()) < |file|
      ensures error == (old(error) || !ok)
      ensures ptr == 0 && (ok ==> used == if |file| - Pos() < size then |file| - Pos() else size)
      ensures !ok ==> used == 0
    {
      var newFilePos := filePos + (if ptr < used then ptr else used);
      var n := Pread(newFilePos);
      if n == 0 {
        filePos := newFilePos;
        ptr, used := 0, 0;
        error := true;
        return false;
      }
      used := n;
      ptr := 0;
      filePos := newFilePos;
      return true;
    }

    lemma {:induction false} WindowSlice(i: nat, j: nat)
      requires Valid() && i <= j <= used && used > 0
      ensures buf[i..j] == file[filePos + i..filePos + j]
    {
      SliceOfSlice(buf[..], 0, used, i, j);
      assert buf[..][0..used] == buf[..used] && buf[..][i..j] == buf[i..j];
      SliceOfSlice(file, filePos, filePos + used, i, j);
    }

    /** A read from position start has failed: it stands at the end of the file, or behind it where it stood before. */
    ghost predicate EndReached(start: nat)
      reads this
    {
      Pos() == if start < |file| then |file| else start
    }

    /** The first n bytes of the destination are the n file bytes from position start. */
    ghost predicate Copied(dst: seq<u8>, n: nat, start: nat) {
      n <= |dst| && (n > 0 ==> start + n <= |file| && dst[..n] == file[start..start + n])
    }

    lemma {:induction false} NothingCopied(dst: seq<u8>, start: nat)
      ensures Copied(dst, 0, start)
    {
    }

    /** Overwriting bytes n to n + m with the next file bytes extends what is copied. */
    lemma {:induction false} CopiedMore(before: seq<u8>, after: seq<u8>, n: nat, m: nat, start: nat)
      requires Copied(before, n, start) && n + m <= |before| == |after| && start + n + m <= |file|
      requires after[..n] == before[..n] && after[n..n + m] == file[start + n..start + n + m]
      ensures Copied(after, n + m, start)
    {
      assert after[..n + m] == after[..n] + after[n..n + m];
      assert n > 0 ==> file[start..start + n + m] == file[start..start + n] + file[start + n..start + n + m];
    }

    /** Copies the next n bytes of the window to the destination (memcpy). */
    method CopyOut(dst: array<u8>, at: nat, n: nat, ghost start: nat)
      requires Valid() && dst != buf && at + n <= dst.Length && ptr + n <= used
      requires start + at == Pos() && Copied(dst[..], at, start)
      modifies this`ptr, dst
      ensures Valid() && ptr == old(ptr) + n && Copied(dst[..], at + n, start)
      ensures dst[at + n..] == old(dst[at + n..])
    {
      ghost var before := dst[..];
      MemCopy(dst, at, buf, ptr, n);
      ghost var after := dst[..];
      assert Valid() && (n > 0 ==> filePos + used <= |file|);
      if n > 0 {
        hide Copied, Valid;
        WindowSlice(ptr, ptr + n);
        assert after[at..at + n] == dst[at..at + n] == buf[ptr..ptr + n];
        assert after[..at] == before[..at];
        CopiedMore(before, after, at, n, start);
      }
      ptr := ptr + n;
    }

    /** Empties the window into the destination. */
    method CopyTail(dst: array<u8>, at: nat, len: nat, ghost start: nat) returns (at': nat, len': nat)
      requires Valid() && dst != buf && at + len <= dst.Length
      requires used - ptr <= len
      requires start + at == Pos() && Copied(dst[..], at, start)
      modifies this`ptr, dst
      ensures Valid() && ptr == used <= size
      ensures at' + len' == at + len && len' == len - (used - old(ptr))
      ensures start + at' == Pos() && Copied(dst[..], at', start)
      ensures dst[at + len..] == old(dst[at + len..])
    {
      if used <= ptr {
        return at, len;
      }
      var toCopy := used - ptr;
      ghost var before := dst[..];
      CopyOut(dst, at, toCopy, start);
      assert dst[at + len..] == dst[at + toCopy..][len - toCopy..] == before[at + toCopy..][len - toCopy..];
      at', len' := at + toCopy, len - toCopy;
    }

    /**
      Reads len bytes. When they lie within the file they are exactly the bytes at the position, which
      advances by len, and no error is raised; a read that reaches past the end sets the error. Reads
      longer than the window go through it piece by piece.
     */
    method Read(dst: array<u8>, len: nat)
      requires Valid() && dst != buf && len <= dst.Length
      modifies this, buf, dst
      ensures Valid()
      ensures dst[len..] == old(dst[len..])
      ensures len == 0 || old(Pos()) + len <= |file| ==>
                error == old(error) && Pos() == old(Pos()) + len && Copied(dst[..], len, old(Pos()))
      ensures len > 0 && old(Pos()) + len > |file| ==>
                error && EndReached(old(Pos()))
    {
      hide Copied;
      NothingCopied(dst[..], Pos());
      ghost var start := Pos();
      var ok, at, rest := ReadPieces(dst, len);
      if !ok {
        return;
      }
      hide Valid;
      ok, at, rest := ReadRest(dst, at, rest, start);
      if ok {
        CopyOut(dst, at, rest, start);
      }
    }

    /** The loop of Read: whole windows, until what is left fits into one. */
    method ReadPieces(dst: array<u8>, len: nat) returns (ok: bool, at: nat, rest: nat)
      requires Valid() && dst != buf && len <= dst.Length && Copied(dst[..], 0, Pos())
      modifies this, buf, dst
      ensures Valid() && dst[len..] == old(dst[len..])
      ensures ok ==> at + rest == len && rest <= size && old(Pos()) + at == Pos() && Copied(dst[..], at, old(Pos()))
      ensures ok ==> error == old(error) && (len > 0 ==> rest > 0)
      ensures !ok ==> error && len > 0 && old(Pos()) + len > |file| && EndReached(old(Pos()))
    {
      hide Copied;
      ghost var start := Pos();
      at, rest := 0, len;
      while rest > size
        invariant Valid() && at + rest == len && start + at == Pos()
        invariant Copied(dst[..], at, start)
        invariant len > 0 ==> rest > 0
        invariant error == old(error)
        invariant dst[len..] == old(dst[len..])
        decreases rest, if ptr == used then 1 else 0
      {
        assert ptr <= used <= size;
        hide Valid;
        at, rest := CopyTail(dst, at, rest, start);
        if rest > 0 {
          ok := DoRefill();
          if !ok {
            return;
          }
        }
      }
      ok := true;
    }

    /**
      What is left after the loop: another window when this one does not hold it; past the end of the file,
      an error.
     */
    method ReadRest(dst: array<u8>, at: nat, rest: nat, ghost start: nat) returns (ok: bool, at': nat, rest': nat)
      requires Valid() && dst != buf && at + rest <= dst.Length && rest <= size && start + at == Pos() &&
               Copied(dst[..], at, start)
      modifies this, buf, dst
      ensures Valid() && dst[at + rest..] == old(dst[at + rest..])
      ensures ok ==> at' + rest' == at + rest && start + at' == Pos() && Copied(dst[..], at',
              start) && ptr + rest' <= used
      ensures ok ==> error == old(error) && (rest > 0 ==> Pos() + rest' <= |file|)
      ensures !ok ==> error && rest > 0 && start + at + rest > |file| && EndReached(start)
    {
      hide Copied;
      at', rest' := at, rest;
      assert ptr <= used <= size;
      if ptr + rest > used {
        hide Valid;
        at', rest' := CopyTail(dst, at, rest, start);
        ok := DoRefill();
        if !ok {
          return;
        }
      }
      ok := ptr + rest' <= used;
      assert filePos + used <= |file| || used == 0;
      if !ok {
        ptr := used;
        error := true;
      }
    }

    /** The next byte, or zero with the error set at the end of the file. */
    method ReadByte() returns (b: u8)
      requires Valid()
      modifies this, buf
      ensures Valid()
      ensures old(Pos()) < |file| ==> b == file[old(Pos())] && Pos() == old(Pos()) + 1 && error == old(error)
      ensures old(Pos()) >= |file| ==> b == 0 && Pos() == old(Pos()) && error
    {
      if ptr >= used {
        var ok := DoRefill();
        if !ok {
          return 0;
        }
      }
      assert buf[ptr] == buf[..used][ptr];
      b := buf[ptr];
      ptr := ptr + 1;
    }

    /** Hands out len bytes without copying when the window holds them; otherwise nothing changes. */
    method ReadFromBuffer(len: nat) returns (ok: bool, data: seq<u8>)
      requires Valid()
      modifies this`ptr
      ensures Valid() && ok == (old(ptr) + len <= used)
      ensures ok ==> |data| == len && Pos() == old(Pos()) + len && Copied(data, len, old(Pos()))
      ensures !ok ==> Pos() == old(Pos())
    {
      if ptr + len > used {
        return false, [];
      }
      data := buf[ptr..ptr + len];
      if len > 0 {
        WindowSlice(ptr, ptr + len);
      }
      ptr := ptr + len;
      ok := true;
    }

    /** Moves to a position, inside the window without dropping it when possible. */
    method Seek(pos: nat)
      requires Valid()
      modifies this
      ensures Valid() && Pos() == pos && error == old(error)
      ensures old(filePos) <= pos < old(filePos) + old(used) ==> used == old(used) && filePos == old(filePos)
      ensures !(old(filePos) <= pos < old(filePos) + old(used)) ==> used == 0
    {
      if filePos <= pos < filePos + used {
        ptr := pos - filePos;
      } else {
        filePos := pos;
        ptr, used := 0, 0;
      }
    }

    /** Reads a variable-length integer byte by byte (Unpack_uint32 and Unpack_uint64). */
    method UnpackValue(width: nat) returns (v: nat)
      requires Valid() && width > 0
      modifies this, buf
      ensures Valid()
      ensures v == Unpack(file, old(Pos()), width).value
      ensures Pos() == Unpack(file, old(Pos()), width).next
      ensures error == (old(error) || !CodeEnds(file, old(Pos())))
    {
      hide Valid, Wrap, UnpackFrom, CodeEnds;
      ghost var result, ends := Unpack(file, Pos(), width), CodeEnds(file, Pos());
      v := 0;
      UnpackStep(file, Pos(), v, width);
      var b := ReadByte();
      while b >= 0x80
        invariant Valid()
        invariant b >= 0x80 ==> result == UnpackFrom(file, Pos(), Wrap(v * 0x80 + (b - 0x80), width), width)
        invariant b >= 0x80 ==> Pos() <= |file| && error == old(error) && ends == CodeEnds(file, Pos())
        invariant b < 0x80 ==> result == Decoded(Wrap(v * 0x80 + b, width), Pos()) && error == (old(error) || !ends)
        decreases if b >= 0x80 then |file| - Pos() + 1 else 0
      {
        v := Wrap(v * 0x80 + (b - 0x80), width);
        UnpackStep(file, Pos(), v, width);
        b := ReadByte();
      }
      v := Wrap(v * 0x80 + b, width);
    }
  }

  /** What one more byte means to the code being read. */
  lemma {:induction false} UnpackStep(file: seq<u8>, pos: nat, acc: nat, width: nat)
    requires width > 0
    ensures pos >= |file| ==> UnpackFrom(file, pos, acc, width) == Decoded(Wrap(acc * 0x80 + 0, width), pos) &&
                              !CodeEnds(file, pos)
    ensures pos < |file| && file[pos] < 0x80 ==>
              UnpackFrom(file, pos, acc, width) == Decoded(Wrap(acc * 0x80 + file[pos], width), pos + 1) &&
              CodeEnds(file, pos)
    ensures pos < |file| && file[pos] >= 0x80 ==>
              UnpackFrom(file, pos, acc, width) == UnpackFrom(file, pos + 1,
                  Wrap(acc * 0x80 + (file[pos] - 0x80), width),
                  width) && CodeEnds(file, pos) == CodeEnds(file, pos + 1)
  {
    hide Wrap;
  }
}
