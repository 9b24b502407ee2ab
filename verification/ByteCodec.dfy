/**
  The variable-length integer code and the raw word layout used by every file of the library
  (util/util_private.h, ByteCodec_c; little-endian words as written by WriteVector).
 */
module ByteCodec {

  type u8 = x: nat | x < 0x100
  type u32 = x: nat | x < 0x1_0000_0000
  type u64 = x: nat | x < 0x1_0000_0000_0000_0000

  const U32_LIMIT: nat := 0x1_0000_0000
  const U64_LIMIT: nat := 0x1_0000_0000_0000_0000

  // ---------------------------------------------------------------- the code, as a function

  /** The bytes of v, seven bits each, most significant first, all with the continuation bit. */
  function PackFront(v: nat): (r: seq<u8>)
    requires v > 0
    ensures |r| > 0
    ensures forall i :: 0 <= i < |r| ==> r[i] >= 0x80
  {
    if v < 0x80 then [v + 0x80] else PackFront(v / 0x80) + [v % 0x80 + 0x80]
  }

  /** The code of v: only the last byte has a clear continuation bit. */
  function Pack(v: nat): (r: seq<u8>)
    ensures |r| > 0
  {
    if v < 0x80 then [v] else PackFront(v / 0x80) + [v % 0x80]
  }

  datatype Decoded = Decoded(value: nat, next: nat)

  /** Arithmetic in an unsigned type of the given width. */
  function Wrap(x: nat, width: nat): (r: nat)
    requires width > 0
    ensures x < width ==> r == x
  {
    x % width
  }

  /**
    Reads a code from position pos of the file into an accumulator of the given width, which wraps.
    A read past the end of the file yields a zero byte and does not move.
   */
  function UnpackFrom(file: seq<u8>, pos: nat, acc: nat, width: nat): (d: Decoded)
    requires width > 0
    decreases |file| - pos
  {
    if pos >= |file| then Decoded(Wrap(acc * 0x80, width), pos)
    else if file[pos] < 0x80 then Decoded(Wrap(acc * 0x80 + file[pos], width), pos + 1)
    else UnpackFrom(file, pos + 1, Wrap(acc * 0x80 + (file[pos] - 0x80), width), width)
  }

  /** The code at position pos ends inside the file. */
  predicate CodeEnds(file: seq<u8>, pos: nat)
    decreases |file| - pos
  {
    pos < |file| && (file[pos] < 0x80 || CodeEnds(file, pos + 1))
  }

  function Unpack(file: seq<u8>, pos: nat, width: nat): Decoded
    requires width > 0
  {
    UnpackFrom(file, pos, 0, width)
  }

  // ---------------------------------------------------------------- decoding undoes coding

  lemma {:induction false} SliceOfSlice<T>(s: seq<T>, a: nat, b: nat, i: nat, j: nat)
    requires a <= b <= |s| && i <= j <= b - a
    ensures s[a..b][i..j] == s[a + i..a + j]
  {
    var t := s[a..b];
    forall k | 0 <= k < j - i ensures t[i..j][k] == s[a + i..a + j][k] {
      assert t[i..j][k] == t[i + k];
      assert t[i + k] == s[a + (i + k)];
    }
  }

  /** bytes occurs in file at position pos. */
  ghost predicate At(file: seq<u8>, pos: nat, bytes: seq<u8>) {
    pos + |bytes| <= |file| && file[pos..pos + |bytes|] == bytes
  }

  lemma {:induction false} AtConcat(file: seq<u8>, pos: nat, a: seq<u8>, b: seq<u8>)
    ensures At(file, pos, a + b) <==> At(file, pos, a) && At(file, pos + |a|, b)
  {
    if At(file, pos, a + b) {
      assert file[pos..pos + |a|] == (a + b)[..|a|];
      assert file[pos + |a|..pos + |a| + |b|] == (a + b)[|a|..];
    }
    if At(file, pos, a) && At(file, pos + |a|, b) {
      assert file[pos..pos + |a + b|] == file[pos..pos + |a|] + file[pos + |a|..pos + |a| + |b|];
    }
  }

  lemma {:induction false} UnpackFront(file: seq<u8>, pos: nat, v: nat, width: nat)
    requires 0 < v < width && At(file, pos, PackFront(v))
    ensures UnpackFrom(file, pos, 0, width) == UnpackFrom(file, pos + |PackFront(v)|, v, width)
    decreases v
  {
    hide Wrap;
    if v < 0x80 {
      assert file[pos] == file[pos..pos + 1][0];
    } else {
      var front := PackFront(v / 0x80);
      AtConcat(file, pos, front, [v % 0x80 + 0x80]);
      UnpackFront(file, pos, v / 0x80, width);
      var last := pos + |front|;
      assert file[last] == file[last..last + 1][0] == v % 0x80 + 0x80;
      assert v / 0x80 * 0x80 + v % 0x80 == v;
    }
  }

  /** Every value below the width of the target is read back, and the reader stops right behind its code. */
  lemma {:induction false} UnpackPack(file: seq<u8>, pos: nat, v: nat, width: nat)
    requires v < width && At(file, pos, Pack(v))
    ensures Unpack(file, pos, width) == Decoded(v, pos + |Pack(v)|)
  {
    if v < 0x80 {
      UnpackLast(file, pos, 0, v, width);
    } else {
      var front := PackFront(v / 0x80);
      AtConcat(file, pos, front, [v % 0x80]);
      UnpackFront(file, pos, v / 0x80, width);
      UnpackLast(file, pos + |front|, v / 0x80, v % 0x80, width);
      hide UnpackFrom, At;
      assert v / 0x80 * 0x80 + v % 0x80 == v;
    }
  }

  lemma {:induction false} UnpackLast(file: seq<u8>, pos: nat, acc: nat, last: nat, width: nat)
    requires last < 0x80 && acc * 0x80 + last < width && At(file, pos, [last])
    ensures UnpackFrom(file, pos, acc, width) == Decoded(acc * 0x80 + last, pos + 1)
  {
    hide Wrap;
    assert file[pos] == file[pos..pos + 1][0];
  }

  // ---------------------------------------------------------------- the code, as the writer computes it

  function Shifted(v: nat, i: nat): nat {
    if i == 0 then v else Shifted(v, i - 1) / 0x80
  }

  method CalcPackedLen(v: nat) returns (n: nat)
    ensures n >= 1 && Shifted(v, n) == 0
    ensures forall i :: 1 <= i < n ==> Shifted(v, i) > 0
  {
    n := 1;
    var rest := v / 0x80;
    assert Shifted(v, 1) == Shifted(v, 0) / 0x80;
    while rest != 0
      invariant n >= 1 && rest == Shifted(v, n)
      invariant forall i :: 1 <= i < n ==> Shifted(v, i) > 0
      decreases rest
    {
      rest := rest / 0x80;
      n := n + 1;
    }
  }

  method ShiftRight7(v: nat, i: nat) returns (r: nat)
    ensures r == Shifted(v, i)
  {
    r := v;
    for k := 0 to i
      invariant r == Shifted(v, k)
    {
      r := r / 0x80;
    }
  }

  method EncodeValue(v: nat) returns (out: seq<u8>)
    ensures out == Pack(v)
  {
    var numBytes := CalcPackedLen(v);
    out := [];
    var i := numBytes;
    while i > 0
      invariant 0 <= i <= numBytes
      invariant i == numBytes ==> out == []
      invariant 0 < i < numBytes ==> Shifted(v, i) > 0 && out == PackFront(Shifted(v, i))
      invariant i == 0 ==> out == Pack(v)
    {
      i := i - 1;
      var shifted := ShiftRight7(v, i);
      assert Shifted(v, i + 1) == shifted / 0x80;
      var encoded := shifted % 0x80;
      if i > 0 {
        encoded := encoded + 0x80;
      }
      out := out + [encoded];
    }
  }

  // ---------------------------------------------------------------- words

  /** The four bytes of a word, least significant first. */
  function WordBytes(w: u32): (r: seq<u8>)
    ensures |r| == 4
  {
    var q1 := w / 0x100;
    var q2 := q1 / 0x100;
    [w % 0x100, q1 % 0x100, q2 % 0x100, q2 / 0x100]
  }

  function WordOf(b: seq<u8>): u32
    requires |b| == 4
  {
    var b0: nat, b1: nat, b2: nat, b3: nat := b[0], b[1], b[2], b[3];
    b0 + 0x100 * b1 + 0x1_0000 * b2 + 0x100_0000 * b3
  }

  function Power256(j: nat): (r: nat)
    ensures r > 0
  {
    if j == 0 then 1 else 0x100 * Power256(j - 1)
  }

  /** Words lie in the file as they lie in memory: byte j of word i is its j-th lowest byte. */
  lemma {:induction false} WordByteAt(ws: seq<u32>, i: nat, j: nat)
    requires i < |ws| && j < 4
    ensures WordsBytes(ws)[4 * i + j] == ws[i] / Power256(j) % 0x100
    decreases |ws|
  {
    if i < |ws| - 1 {
      WordByteAt(ws[..|ws| - 1], i, j);
    } else {
      ByteAt(ws[i], j);
    }
  }

  lemma {:induction false} ByteAt(w: u32, j: nat)
    requires j < 4
    ensures WordBytes(w)[j] == w / Power256(j) % 0x100
  {
    assert Power256(1) == 0x100 && Power256(2) == 0x1_0000 && Power256(3) == 0x100_0000;
  }

  function Power128(j: nat): (r: nat)
    ensures r > 0
  {
    if j == 0 then 1 else 0x80 * Power128(j - 1)
  }

  /**
    The code of a value is its digits to the base of 128, the highest first and without leading zeros, with the top
    bit set in all but the last.
   */
  lemma {:induction false} PackDigits(v: nat, k: nat)
    requires k < |Pack(v)|
    ensures var n := |Pack(v)|;
            Pack(v)[n - 1 - k] == v / Power128(k) % 0x80 + (if k > 0 then 0x80 else 0) && v < Power128(n) &&
                (n > 1 ==> Power128(n - 1) <= v)
  {
    if v >= 0x80 {
      FrontDigits(v / 0x80, if k > 0 then k - 1 else 0);
      if k > 0 {
        DivideTwice(v, Power128(k - 1));
      }
    }
  }

  lemma {:induction false} FrontDigits(v: nat, k: nat)
    requires v > 0 && k < |PackFront(v)|
    ensures var n := |PackFront(v)|;
            PackFront(v)[n - 1 - k] == v / Power128(k) % 0x80 + 0x80 && Power128(n - 1) <= v < Power128(n)
  {
    if v >= 0x80 {
      FrontDigits(v / 0x80, if k > 0 then k - 1 else 0);
      if k > 0 {
        DivideTwice(v, Power128(k - 1));
      }
    }
  }

  lemma {:induction false} DivideTwice(v: nat, p: nat)
    requires p > 0
    ensures v / (0x80 * p) == v / 0x80 / p
  {
    var q := v / 0x80 / p;
    var r := v / 0x80 % p;
    assert v == 0x80 * p * q + (0x80 * r + v % 0x80);
    assert 0x80 * r + v % 0x80 < 0x80 * p;
    Quotient(v, 0x80 * p, q, 0x80 * r + v % 0x80);
  }

  lemma {:induction false} Quotient(x: nat, m: nat, q: nat, r: nat)
    requires x == m * q + r && r < m
    ensures x / m == q
  {
    assert m * (x / m - q) == r - x % m;
    MultipleApart(x / m - q, m);
  }

  lemma {:induction false} MultipleApart(d: int, m: nat)
    ensures d > 0 ==> m * d >= m
    ensures d < 0 ==> -(m * d) >= m
  {
  }

  lemma {:induction false} WordRoundTrip(w: u32)
    ensures WordOf(WordBytes(w)) == w
  {
  }

  function WordsBytes(ws: seq<u32>): (r: seq<u8>)
    ensures |r| == 4 * |ws|
  {
    if ws == [] then [] else WordsBytes(ws[..|ws| - 1]) + WordBytes(ws[|ws| - 1])
  }

  /** The n words stored at position pos. */
  function ReadWords(file: seq<u8>, pos: nat, n: nat): (ws: seq<u32>)
    requires pos + 4 * n <= |file|
    ensures |ws| == n
  {
    if n == 0 then []
    else ReadWords(file, pos, n - 1) + [WordOf(file[pos + 4 * n - 4..pos + 4 * n])]
  }

  lemma {:induction false} ReadWordsBack(file: seq<u8>, pos: nat, ws: seq<u32>)
    requires At(file, pos, WordsBytes(ws))
    ensures ReadWords(file, pos, |ws|) == ws
  {
    if ws != [] {
      var n := |ws|;
      AtConcat(file, pos, WordsBytes(ws[..n - 1]), WordBytes(ws[n - 1]));
      ReadWordsBack(file, pos, ws[..n - 1]);
      WordRoundTrip(ws[n - 1]);
      assert file[pos + 4 * n - 4..pos + 4 * n] == WordBytes(ws[n - 1]);
    }
  }

  lemma {:induction false} WordsBytesConcat(a: seq<u32>, b: seq<u32>)
    ensures WordsBytes(a + b) == WordsBytes(a) + WordsBytes(b)
  {
    if b == [] {
      assert a + b == a;
    } else {
      var n := |b| - 1;
      WordsBytesConcat(a, b[..n]);
      assert (a + b)[..|a + b| - 1] == a + b[..n];
      assert WordsBytes(a) + (WordsBytes(b[..n]) + WordBytes(b[n])) == WordsBytes(a) + WordsBytes(b[..n]) +
             WordBytes(b[n]);
    }
  }
}
