/** The MD5 compression function (RFC 1321, section 3.4): the indexed recurrence, the unrolled in-place form of
    md5.cpp, and the inverse of the recurrence for a fixed block. */
module Md5Compress {
  import opened Bytes

  // ---------- Bitwise operations on words ----------

  /** Bit k of a number, from the least significant. */
  function Bit(x: nat, k: nat): bool {
    if k == 0 then x % 2 == 1 else Bit(x / 2, k - 1)
  }

  function And(x: nat, y: nat): (r: nat)
    ensures r <= x && r <= y
  {
    if x == 0 then 0 else 2 * And(x / 2, y / 2) + (if x % 2 == 1 && y % 2 == 1 then 1 else 0)
  }

  function Not(x: uint32): uint32 {
    TWO32 - 1 - x
  }

  function Or(x: uint32, y: uint32): uint32 {
    Not(And(Not(x), Not(y)))
  }

  function Xor(x: uint32, y: uint32): uint32 {
    Or(And(x, Not(y)), And(Not(x), y))
  }

  lemma {:induction false} AndBits(x: nat, y: nat, k: nat)
    ensures Bit(And(x, y), k) == (Bit(x, k) && Bit(y, k))
  {
    if x == 0 {
      ZeroBits(k);
    } else if k > 0 {
      AndBits(x / 2, y / 2, k - 1);
    }
  }

  lemma {:induction false} ZeroBits(k: nat)
    ensures !Bit(0, k)
  {
    if k > 0 {
      ZeroBits(k - 1);
    }
  }

  lemma {:induction false} ComplementBits(x: nat, k: nat, w: nat)
    requires k < w && x < Pow2(w)
    ensures Bit(Pow2(w) - 1 - x, k) == !Bit(x, k)
  {
    if k > 0 {
      ComplementBits(x / 2, k - 1, w - 1);
      assert (Pow2(w) - 1 - x) / 2 == Pow2(w - 1) - 1 - x / 2;
    }
  }

  lemma WordBits(x: uint32, y: uint32, k: nat)
    requires k < 32
    ensures Bit(Not(x), k) == !Bit(x, k)
    ensures Bit(Or(x, y), k) == (Bit(x, k) || Bit(y, k))
    ensures Bit(Xor(x, y), k) == (Bit(x, k) != Bit(y, k))
  {
    hide Bit, And, Pow2;
    NotBits(x, k);
    NotBits(y, k);
    OrBits(x, y, k);
    AndBits(x, Not(y), k);
    AndBits(Not(x), y, k);
    OrBits(And(x, Not(y)), And(Not(x), y), k);
  }

  lemma NotBits(x: uint32, k: nat)
    requires k < 32
    ensures Bit(Not(x), k) == !Bit(x, k)
  {
    Pow2Of32();
    ComplementBits(x, k, 32);
  }

  lemma OrBits(x: uint32, y: uint32, k: nat)
    requires k < 32
    ensures Bit(Or(x, y), k) == (Bit(x, k) || Bit(y, k))
  {
    NotBits(x, k);
    NotBits(y, k);
    AndBits(Not(x), Not(y), k);
    NotBits(And(Not(x), Not(y)), k);
  }

  // ---------- The four auxiliary functions and one operation ----------

  function F(x: uint32, y: uint32, z: uint32): uint32 {
    Or(And(x, y), And(Not(x), z))
  }

  function G(x: uint32, y: uint32, z: uint32): uint32 {
    Or(And(x, z), And(y, Not(z)))
  }

  function H(x: uint32, y: uint32, z: uint32): uint32 {
    Xor(Xor(x, y), z)
  }

  function I(x: uint32, y: uint32, z: uint32): uint32 {
    Xor(y, Or(x, Not(z)))
  }

  /** What the four functions mean bit by bit: F selects y or z by x, G selects x or y by z, H is the parity. */
  lemma AuxiliaryBits(x: uint32, y: uint32, z: uint32, k: nat)
    requires k < 32
    ensures Bit(F(x, y, z), k) == if Bit(x, k) then Bit(y, k) else Bit(z, k)
    ensures Bit(G(x, y, z), k) == if Bit(z, k) then Bit(x, k) else Bit(y, k)
    ensures Bit(H(x, y, z), k) == ((Bit(x, k) != Bit(y, k)) != Bit(z, k))
    ensures Bit(I(x, y, z), k) == (Bit(y, k) != (Bit(x, k) || !Bit(z, k)))
  {
    hide Bit, And, Or, Xor, Not;
    AndBits(x, y, k);
    WordBits(x, y, k);
    AndBits(Not(x), z, k);
    WordBits(And(x, y), And(Not(x), z), k);
    AndBits(x, z, k);
    WordBits(z, z, k);
    AndBits(y, Not(z), k);
    WordBits(And(x, z), And(y, Not(z)), k);
    WordBits(Xor(x, y), z, k);
    WordBits(x, Not(z), k);
    WordBits(y, Or(x, Not(z)), k);
  }

  function Add(x: uint32, y: uint32): uint32 {
    (x as int + y as int) % TWO32
  }

  function Sub(x: uint32, y: uint32): uint32 {
    (x as int - y as int) % TWO32
  }

  function Pow2(n: nat): (p: nat)
    ensures 0 < p
  {
    if n == 0 then 1 else 2 * Pow2(n - 1)
  }

  lemma {:induction false} Pow2Splits(m: nat, n: nat)
    ensures Pow2(m + n) == Pow2(m) * Pow2(n)
  {
    if m > 0 {
      Pow2Splits(m - 1, n);
    }
  }

  lemma DivModUnique(q: int, d: int, r: int)
    requires 0 <= r < d
    ensures (q * d + r) / d == q && (q * d + r) % d == r
  {
    var k := (q * d + r) / d - q;
    assert k * d == r - (q * d + r) % d;
  }

  lemma Pow2Of32()
    ensures Pow2(32) == TWO32
  {
    Pow2Splits(8, 8);
    Pow2Splits(16, 16);
  }

  /** The two halves of a word, exchanged, fit in a word again. */
  lemma HalvesFit(x: uint32, p: nat, q: nat)
    requires p * q == TWO32
    ensures 0 < q && x as int / q < p && x as int % q < q
    ensures 0 <= x as int % q * p + x as int / q < TWO32
  {
    var high, low := x as int / q, x as int % q;
    assert x as int == high * q + low;
    assert (p - high) * q == TWO32 - high * q > 0;
    assert (q - low - 1) * p >= 0;
    assert low * p + p <= q * p;
  }

  /** Exchange the high part of a word, of which there are p values, with its low part of q values. */
  function ExchangeHalves(x: uint32, p: nat, q: nat): uint32
    requires p * q == TWO32
  {
    HalvesFit(x, p, q);
    x as int % q * p + x as int / q
  }

  lemma ExchangesCancel(x: uint32, p: nat, q: nat)
    requires p * q == TWO32
    ensures q * p == TWO32 && ExchangeHalves(ExchangeHalves(x, p, q), q, p) == x
  {
    HalvesFit(x, p, q);
    DivModUnique(x as int % q, p, x as int / q);
  }

  lemma Pow2Complements(n: nat)
    requires n <= 32
    ensures Pow2(n) * Pow2(32 - n) == TWO32
  {
    Pow2Of32();
    Pow2Splits(n, 32 - n);
  }

  /** (x << n) | (x >> (32 - n)): the two parts share no bit, so their union is their sum. */
  function RotateLeft(x: uint32, n: nat): uint32
    requires n <= 32
  {
    Pow2Complements(n);
    ExchangeHalves(x, Pow2(n), Pow2(32 - n))
  }

  /** The bits of a number put together from two, the lower one of `n` bits. */
  lemma {:induction false} JoinedBits(high: nat, low: nat, n: nat, k: nat)
    requires low < Pow2(n)
    ensures Bit(high * Pow2(n) + low, k) == if k < n then Bit(low, k) else Bit(high, k - n)
  {
    if n > 0 {
      var x, p := high * Pow2(n) + low, Pow2(n - 1);
      assert x == 2 * (high * p + low / 2) + low % 2;
      if k > 0 {
        JoinedBits(high, low / 2, n - 1, k - 1);
      }
    }
  }

  /** Exchanging the parts of a number, the upper of `n` bits and the lower of `m`. */
  lemma ExchangedBits(high: nat, low: nat, n: nat, m: nat, k: nat)
    requires high < Pow2(n) && low < Pow2(m) && k < m + n
    ensures Bit(low * Pow2(n) + high, if k < m then k + n else k - m) == Bit(high * Pow2(m) + low, k)
  {
    hide Bit, Pow2;
    JoinedBits(high, low, m, k);
    JoinedBits(low, high, n, if k < m then k + n else k - m);
  }

  lemma ExchangeHalvesBits(x: uint32, p: nat, q: nat, n: nat, k: nat)
    requires n <= 32 && p == Pow2(n) && q == Pow2(32 - n) && p * q == TWO32 && k < 32
    ensures Bit(ExchangeHalves(x, p, q), if k + n < 32 then k + n else k + n - 32) == Bit(x, k)
  {
    hide Bit, Pow2;
    HalvesFit(x, p, q);
    var high, low := x as int / q, x as int % q;
    assert x as int == high * q + low;
    ExchangedBits(high, low, n, 32 - n, k);
  }

  /** The rotation moves every bit n places up, and the topmost n bits round to the bottom. */
  lemma RotateLeftBits(x: uint32, n: nat, k: nat)
    requires n <= 32 && k < 32
    ensures Bit(RotateLeft(x, n), if k + n < 32 then k + n else k + n - 32) == Bit(x, k)
  {
    hide Bit, Pow2, ExchangeHalves;
    Pow2Complements(n);
    ExchangeHalvesBits(x, Pow2(n), Pow2(32 - n), n, k);
  }

  function RotateRight(x: uint32, n: nat): uint32
    requires n <= 32
  {
    RotateLeft(x, 32 - n)
  }

  /** What FF, GG, HH and II leave in their reference argument, `f` being the value of F, G, H or I. */
  function Turn(f: uint32, a: uint32, b: uint32, x: uint32, s: nat, ac: uint32): uint32
    requires 0 < s < 32
  {
    Add(RotateLeft(Add(Add(Add(a, f), x), ac), s), b)
  }

  function FF(a: uint32, b: uint32, c: uint32, d: uint32, x: uint32, s: nat, ac: uint32): uint32
    requires 0 < s < 32
  {
    Turn(F(b, c, d), a, b, x, s, ac)
  }

  function GG(a: uint32, b: uint32, c: uint32, d: uint32, x: uint32, s: nat, ac: uint32): uint32
    requires 0 < s < 32
  {
    Turn(G(b, c, d), a, b, x, s, ac)
  }

  function HH(a: uint32, b: uint32, c: uint32, d: uint32, x: uint32, s: nat, ac: uint32): uint32
    requires 0 < s < 32
  {
    Turn(H(b, c, d), a, b, x, s, ac)
  }

  function II(a: uint32, b: uint32, c: uint32, d: uint32, x: uint32, s: nat, ac: uint32): uint32
    requires 0 < s < 32
  {
    Turn(I(b, c, d), a, b, x, s, ac)
  }

  // ---------- The indexed recurrence ----------

  datatype State = State(a: uint32, b: uint32, c: uint32, d: uint32)

  const INIT := State(0x67452301, 0xefcdab89, 0x98badcfe, 0x10325476)

  type Index = i: int | 0 <= i < 64

  /** The word of the block that operation i uses. */
  function WordIndex(i: Index): (k: nat)
    ensures k < 16
  {
    if i < 16 then i
    else if i < 32 then (5 * i + 1) % 16
    else if i < 48 then (3 * i + 5) % 16
    else 7 * i % 16
  }

  function Shift(i: Index): (s: nat)
    ensures 0 < s < 32
  {
    var j := i % 4;
    if i < 16 then (if j == 0 then 7 else if j == 1 then 12 else if j == 2 then 17 else 22)
    else if i < 32 then (if j == 0 then 5 else if j == 1 then 9 else if j == 2 then 14 else 20)
    else if i < 48 then (if j == 0 then 4 else if j == 1 then 11 else if j == 2 then 16 else 23)
    else (if j == 0 then 6 else if j == 1 then 10 else if j == 2 then 15 else 21)
  }

  /** The table T of RFC 1321: entry i is the integer part of 2^32 times |sin(i + 1)|. */
  function Constant(i: Index): uint32 {
    match i
    case 0 => 0xd76aa478
    case 1 => 0xe8c7b756
    case 2 => 0x242070db
    case 3 => 0xc1bdceee
    case 4 => 0xf57c0faf
    case 5 => 0x4787c62a
    case 6 => 0xa8304613
    case 7 => 0xfd469501
    case 8 => 0x698098d8
    case 9 => 0x8b44f7af
    case 10 => 0xffff5bb1
    case 11 => 0x895cd7be
    case 12 => 0x6b901122
    case 13 => 0xfd987193
    case 14 => 0xa679438e
    case 15 => 0x49b40821
    case 16 => 0xf61e2562
    case 17 => 0xc040b340
    case 18 => 0x265e5a51
    case 19 => 0xe9b6c7aa
    case 20 => 0xd62f105d
    case 21 => 0x02441453
    case 22 => 0xd8a1e681
    case 23 => 0xe7d3fbc8
    case 24 => 0x21e1cde6
    case 25 => 0xc33707d6
    case 26 => 0xf4d50d87
    case 27 => 0x455a14ed
    case 28 => 0xa9e3e905
    case 29 => 0xfcefa3f8
    case 30 => 0x676f02d9
    case 31 => 0x8d2a4c8a
    case 32 => 0xfffa3942
    case 33 => 0x8771f681
    case 34 => 0x6d9d6122
    case 35 => 0xfde5380c
    case 36 => 0xa4beea44
    case 37 => 0x4bdecfa9
    case 38 => 0xf6bb4b60
    case 39 => 0xbebfbc70
    case 40 => 0x289b7ec6
    case 41 => 0xeaa127fa
    case 42 => 0xd4ef3085
    case 43 => 0x04881d05
    case 44 => 0xd9d4d039
    case 45 => 0xe6db99e5
    case 46 => 0x1fa27cf8
    case 47 => 0xc4ac5665
    case 48 => 0xf4292244
    case 49 => 0x432aff97
    case 50 => 0xab9423a7
    case 51 => 0xfc93a039
    case 52 => 0x655b59c3
    case 53 => 0x8f0ccc92
    case 54 => 0xffeff47d
    case 55 => 0x85845dd1
    case 56 => 0x6fa87e4f
    case 57 => 0xfe2ce6e0
    case 58 => 0xa3014314
    case 59 => 0x4e0811a1
    case 60 => 0xf7537e82
    case 61 => 0xbd3af235
    case 62 => 0x2ad7d2bb
    case _ => 0xeb86d391
  }

  function Operation(i: Index, s: State, x: uint32): uint32 {
    if i < 16 then FF(s.a, s.b, s.c, s.d, x, Shift(i), Constant(i))
    else if i < 32 then GG(s.a, s.b, s.c, s.d, x, Shift(i), Constant(i))
    else if i < 48 then HH(s.a, s.b, s.c, s.d, x, Shift(i), Constant(i))
    else II(s.a, s.b, s.c, s.d, x, Shift(i), Constant(i))
  }

  /** Operation i writes one register; renaming the registers makes it the second one of the next state. */
  function Step(i: Index, s: State, x: seq<uint32>): State
    requires |x| == 16
  {
    State(s.d, Operation(i, s, x[WordIndex(i)]), s.b, s.c)
  }

  function Steps(n: nat, s: State, x: seq<uint32>): State
    requires n <= 64 && |x| == 16
  {
    if n == 0 then s else Step(n - 1, Steps(n - 1, s, x), x)
  }

  function WordsOf(bytes: seq<byte>): (ws: seq<uint32>)
    requires |bytes| % 4 == 0
    ensures |ws| == |bytes| / 4
    ensures forall i :: 0 <= i < |ws| ==> ws[i] == DecodeWord(bytes[4 * i..4 * i + 4])
  {
    seq(|bytes| / 4, i requires 0 <= i < |bytes| / 4 => DecodeWord(bytes[4 * i..4 * i + 4]))
  }

  function FeedForward(s: State, t: State): State {
    State(Add(s.a, t.a), Add(s.b, t.b), Add(s.c, t.c), Add(s.d, t.d))
  }

  function Compress(s: State, block: seq<byte>): State
    requires |block| == 64
  {
    var x := WordsOf(block);
    FeedForward(s, Steps(4 * |x|, s, x))
  }

  // ---------- What the recurrence is made of, from RFC 1321 ----------

  function Auxiliary(i: Index, b: uint32, c: uint32, d: uint32): uint32 {
    if i < 16 then F(b, c, d) else if i < 32 then G(b, c, d) else if i < 48 then H(b, c, d) else I(b, c, d)
  }

  lemma AddWraps(x: uint32, y: uint32)
    ensures Add(x, y) as int == if x as int + y as int < 0x1_0000_0000 then x as int + y as int
                                else x as int + y as int - 0x1_0000_0000
  {
  }

  lemma SumWraps(x: uint32, y: uint32, z: uint32, w: uint32)
    ensures Add(Add(Add(x, y), z), w) as int == (x as int + y as int + z as int + w as int) % 0x1_0000_0000
  {
    AddWraps(x, y);
    AddWraps(Add(x, y), z);
    AddWraps(Add(Add(x, y), z), w);
    hide Add;
  }

  /** One operation: b + ((a + f(b, c, d) + X[k] + T[i]) <<< s) becomes the new b, and the registers move on. */
  lemma StepIsTheOperation(i: Index, s: State, x: seq<uint32>)
    requires |x| == 16
    ensures var f := if i < 16 then F(s.b, s.c, s.d) else if i < 32 then G(s.b, s.c, s.d)
                     else if i < 48 then H(s.b, s.c, s.d) else I(s.b, s.c, s.d);
            var sum := (s.a as int + f as int + x[WordIndex(i)] as int + Constant(i) as int) % 0x1_0000_0000;
            Step(i, s, x) == State(s.d, Add(s.b, RotateLeft(sum, Shift(i))), s.b, s.c)
  {
    hide F, G, H, I, Constant, RotateLeft;
    var f := Auxiliary(i, s.b, s.c, s.d);
    SumWraps(s.a, f, x[WordIndex(i)], Constant(i));
  }

  /** The words are used in steps of 1, 5, 3 and 7, beginning with words 0, 1, 5 and 0. */
  lemma WordsInSteps(i: Index)
    ensures WordIndex(0) == 0 && WordIndex(16) == 1 && WordIndex(32) == 5 && WordIndex(48) == 0
    ensures 0 < i < 16 ==> WordIndex(i) == WordIndex(i - 1) + 1
    ensures 16 < i < 32 ==> WordIndex(i) == (WordIndex(i - 1) + 5) % 16
    ensures 32 < i < 48 ==> WordIndex(i) == (WordIndex(i - 1) + 3) % 16
    ensures 48 < i ==> WordIndex(i) == (WordIndex(i - 1) + 7) % 16
  {
    ResidueAdds(5 * i - 4, 5);
    ResidueAdds(3 * i + 2, 3);
    ResidueAdds(7 * i - 7, 7);
  }

  lemma ResidueAdds(n: int, k: int)
    ensures (n % 16 + k) % 16 == (n + k) % 16
  {
    var q := (n + k) / 16;
    DivModUnique(q - n / 16, 16, (n + k) % 16);
  }

  lemma ShiftsInRounds(i: Index)
    ensures Shift(i) == [[7, 12, 17, 22], [5, 9, 14, 20], [4, 11, 16, 23], [6, 10, 15, 21]][i / 16][i % 4]
  {
  }

  /** The sum of the state and of the result of the 64 operations, word by word. */
  lemma CompressAddsTheState(s: State, block: seq<byte>, n: nat)
    requires |block| == 64 && n == 64
    ensures var t := Steps(n, s, WordsOf(block));
            && Compress(s, block).a as int == (s.a as int + t.a as int) % 0x1_0000_0000
            && Compress(s, block).b as int == (s.b as int + t.b as int) % 0x1_0000_0000
            && Compress(s, block).c as int == (s.c as int + t.c as int) % 0x1_0000_0000
            && Compress(s, block).d as int == (s.d as int + t.d as int) % 0x1_0000_0000
  {
    hide Steps;
  }

  // ---------- The unrolled form ----------

  lemma NextStep(i: Index, s: State, x: seq<uint32>)
    requires |x| == 16
    ensures Steps(i + 1, s, x) == Step(i, Steps(i, s, x), x)
  {
  }

  /** The calls of FF in transform: sixteen updates in place, without renaming. */
  method Round1(s: State, x: seq<uint32>, a0: uint32, b0: uint32, c0: uint32, d0: uint32)
    returns (a: uint32, b: uint32, c: uint32, d: uint32)
    requires |x| == 16 && State(a0, b0, c0, d0) == Steps(0, s, x)
    ensures State(a, b, c, d) == Steps(16, s, x)
  {
    hide FF, GG, HH, II, Steps;
    a, b, c, d := a0, b0, c0, d0;
    a := FF(a, b, c, d, x[0], 7, 0xd76aa478);
    NextStep(0, s, x);
    assert Steps(1, s, x) == State(d, a, b, c);
    d := FF(d, a, b, c, x[1], 12, 0xe8c7b756);
    NextStep(1, s, x);
    assert Steps(2, s, x) == State(c, d, a, b);
    c := FF(c, d, a, b, x[2], 17, 0x242070db);
    NextStep(2, s, x);
    assert Steps(3, s, x) == State(b, c, d, a);
    b := FF(b, c, d, a, x[3], 22, 0xc1bdceee);
    NextStep(3, s, x);
    assert Steps(4, s, x) == State(a, b, c, d);
    a := FF(a, b, c, d, x[4], 7, 0xf57c0faf);
    NextStep(4, s, x);
    assert Steps(5, s, x) == State(d, a, b, c);
    d := FF(d, a, b, c, x[5], 12, 0x4787c62a);
    NextStep(5, s, x);
    assert Steps(6, s, x) == State(c, d, a, b);
    c := FF(c, d, a, b, x[6], 17, 0xa8304613);
    NextStep(6, s, x);
    assert Steps(7, s, x) == State(b, c, d, a);
    b := FF(b, c, d, a, x[7], 22, 0xfd469501);
    NextStep(7, s, x);
    assert Steps(8, s, x) == State(a, b, c, d);
    a := FF(a, b, c, d, x[8], 7, 0x698098d8);
    NextStep(8, s, x);
    assert Steps(9, s, x) == State(d, a, b, c);
    d := FF(d, a, b, c, x[9], 12, 0x8b44f7af);
    NextStep(9, s, x);
    assert Steps(10, s, x) == State(c, d, a, b);
    c := FF(c, d, a, b, x[10], 17, 0xffff5bb1);
    NextStep(10, s, x);
    assert Steps(11, s, x) == State(b, c, d, a);
    b := FF(b, c, d, a, x[11], 22, 0x895cd7be);
    NextStep(11, s, x);
    assert Steps(12, s, x) == State(a, b, c, d);
    a := FF(a, b, c, d, x[12], 7, 0x6b901122);
    NextStep(12, s, x);
    assert Steps(13, s, x) == State(d, a, b, c);
    d := FF(d, a, b, c, x[13], 12, 0xfd987193);
    NextStep(13, s, x);
    assert Steps(14, s, x) == State(c, d, a, b);
    c := FF(c, d, a, b, x[14], 17, 0xa679438e);
    NextStep(14, s, x);
    assert Steps(15, s, x) == State(b, c, d, a);
    b := FF(b, c, d, a, x[15], 22, 0x49b40821);
    NextStep(15, s, x);
    assert Steps(16, s, x) == State(a, b, c, d);
  }

  /** The calls of GG in transform: sixteen updates in place, without renaming. */
  method Round2(s: State, x: seq<uint32>, a0: uint32, b0: uint32, c0: uint32, d0: uint32)
    returns (a: uint32, b: uint32, c: uint32, d: uint32)
    requires |x| == 16 && State(a0, b0, c0, d0) == Steps(16, s, x)
    ensures State(a, b, c, d) == Steps(32, s, x)
  {
    hide FF, GG, HH, II, Steps;
    a, b, c, d := a0, b0, c0, d0;
    a := GG(a, b, c, d, x[1], 5, 0xf61e2562);
    NextStep(16, s, x);
    assert Steps(17, s, x) == State(d, a, b, c);
    d := GG(d, a, b, c, x[6], 9, 0xc040b340);
    NextStep(17, s, x);
    assert Steps(18, s, x) == State(c, d, a, b);
    c := GG(c, d, a, b, x[11], 14, 0x265e5a51);
    NextStep(18, s, x);
    assert Steps(19, s, x) == State(b, c, d, a);
    b := GG(b, c, d, a, x[0], 20, 0xe9b6c7aa);
    NextStep(19, s, x);
    assert Steps(20, s, x) == State(a, b, c, d);
    a := GG(a, b, c, d, x[5], 5, 0xd62f105d);
    NextStep(20, s, x);
    assert Steps(21, s, x) == State(d, a, b, c);
    d := GG(d, a, b, c, x[10], 9, 0x02441453);
    NextStep(21, s, x);
    assert Steps(22, s, x) == State(c, d, a, b);
    c := GG(c, d, a, b, x[15], 14, 0xd8a1e681);
    NextStep(22, s, x);
    assert Steps(23, s, x) == State(b, c, d, a);
    b := GG(b, c, d, a, x[4], 20, 0xe7d3fbc8);
    NextStep(23, s, x);
    assert Steps(24, s, x) == State(a, b, c, d);
    a := GG(a, b, c, d, x[9], 5, 0x21e1cde6);
    NextStep(24, s, x);
    assert Steps(25, s, x) == State(d, a, b, c);
    d := GG(d, a, b, c, x[14], 9, 0xc33707d6);
    NextStep(25, s, x);
    assert Steps(26, s, x) == State(c, d, a, b);
    c := GG(c, d, a, b, x[3], 14, 0xf4d50d87);
    NextStep(26, s, x);
    assert Steps(27, s, x) == State(b, c, d, a);
    b := GG(b, c, d, a, x[8], 20, 0x455a14ed);
    NextStep(27, s, x);
    assert Steps(28, s, x) == State(a, b, c, d);
    a := GG(a, b, c, d, x[13], 5, 0xa9e3e905);
    NextStep(28, s, x);
    assert Steps(29, s, x) == State(d, a, b, c);
    d := GG(d, a, b, c, x[2], 9, 0xfcefa3f8);
    NextStep(29, s, x);
    assert Steps(30, s, x) == State(c, d, a, b);
    c := GG(c, d, a, b, x[7], 14, 0x676f02d9);
    NextStep(30, s, x);
    assert Steps(31, s, x) == State(b, c, d, a);
    b := GG(b, c, d, a, x[12], 20, 0x8d2a4c8a);
    NextStep(31, s, x);
    assert Steps(32, s, x) == State(a, b, c, d);
  }

  /** The calls of HH in transform: sixteen updates in place, without renaming. */
  method Round3(s: State, x: seq<uint32>, a0: uint32, b0: uint32, c0: uint32, d0: uint32)
    returns (a: uint32, b: uint32, c: uint32, d: uint32)
    requires |x| == 16 && State(a0, b0, c0, d0) == Steps(32, s, x)
    ensures State(a, b, c, d) == Steps(48, s, x)
  {
    hide FF, GG, HH, II, Steps;
    a, b, c, d := a0, b0, c0, d0;
    a := HH(a, b, c, d, x[5], 4, 0xfffa3942);
    NextStep(32, s, x);
    assert Steps(33, s, x) == State(d, a, b, c);
    d := HH(d, a, b, c, x[8], 11, 0x8771f681);
    NextStep(33, s, x);
    assert Steps(34, s, x) == State(c, d, a, b);
    c := HH(c, d, a, b, x[11], 16, 0x6d9d6122);
    NextStep(34, s, x);
    assert Steps(35, s, x) == State(b, c, d, a);
    b := HH(b, c, d, a, x[14], 23, 0xfde5380c);
    NextStep(35, s, x);
    assert Steps(36, s, x) == State(a, b, c, d);
    a := HH(a, b, c, d, x[1], 4, 0xa4beea44);
    NextStep(36, s, x);
    assert Steps(37, s, x) == State(d, a, b, c);
    d := HH(d, a, b, c, x[4], 11, 0x4bdecfa9);
    NextStep(37, s, x);
    assert Steps(38, s, x) == State(c, d, a, b);
    c := HH(c, d, a, b, x[7], 16, 0xf6bb4b60);
    NextStep(38, s, x);
    assert Steps(39, s, x) == State(b, c, d, a);
    b := HH(b, c, d, a, x[10], 23, 0xbebfbc70);
    NextStep(39, s, x);
    assert Steps(40, s, x) == State(a, b, c, d);
    a := HH(a, b, c, d, x[13], 4, 0x289b7ec6);
    NextStep(40, s, x);
    assert Steps(41, s, x) == State(d, a, b, c);
    d := HH(d, a, b, c, x[0], 11, 0xeaa127fa);
    NextStep(41, s, x);
    assert Steps(42, s, x) == State(c, d, a, b);
    c := HH(c, d, a, b, x[3], 16, 0xd4ef3085);
    NextStep(42, s, x);
    assert Steps(43, s, x) == State(b, c, d, a);
    b := HH(b, c, d, a, x[6], 23, 0x04881d05);
    NextStep(43, s, x);
    assert Steps(44, s, x) == State(a, b, c, d);
    a := HH(a, b, c, d, x[9], 4, 0xd9d4d039);
    NextStep(44, s, x);
    assert Steps(45, s, x) == State(d, a, b, c);
    d := HH(d, a, b, c, x[12], 11, 0xe6db99e5);
    NextStep(45, s, x);
    assert Steps(46, s, x) == State(c, d, a, b);
    c := HH(c, d, a, b, x[15], 16, 0x1fa27cf8);
    NextStep(46, s, x);
    assert Steps(47, s, x) == State(b, c, d, a);
    b := HH(b, c, d, a, x[2], 23, 0xc4ac5665);
    NextStep(47, s, x);
    assert Steps(48, s, x) == State(a, b, c, d);
  }

  /** The calls of II in transform: sixteen updates in place, without renaming. */
  method Round4(s: State, x: seq<uint32>, a0: uint32, b0: uint32, c0: uint32, d0: uint32)
    returns (a: uint32, b: uint32, c: uint32, d: uint32)
    requires |x| == 16 && State(a0, b0, c0, d0) == Steps(48, s, x)
    ensures State(a, b, c, d) == Steps(64, s, x)
  {
    hide FF, GG, HH, II, Steps;
    a, b, c, d := a0, b0, c0, d0;
    a := II(a, b, c, d, x[0], 6, 0xf4292244);
    NextStep(48, s, x);
    assert Steps(49, s, x) == State(d, a, b, c);
    d := II(d, a, b, c, x[7], 10, 0x432aff97);
    NextStep(49, s, x);
    assert Steps(50, s, x) == State(c, d, a, b);
    c := II(c, d, a, b, x[14], 15, 0xab9423a7);
    NextStep(50, s, x);
    assert Steps(51, s, x) == State(b, c, d, a);
    b := II(b, c, d, a, x[5], 21, 0xfc93a039);
    NextStep(51, s, x);
    assert Steps(52, s, x) == State(a, b, c, d);
    a := II(a, b, c, d, x[12], 6, 0x655b59c3);
    NextStep(52, s, x);
    assert Steps(53, s, x) == State(d, a, b, c);
    d := II(d, a, b, c, x[3], 10, 0x8f0ccc92);
    NextStep(53, s, x);
    assert Steps(54, s, x) == State(c, d, a, b);
    c := II(c, d, a, b, x[10], 15, 0xffeff47d);
    NextStep(54, s, x);
    assert Steps(55, s, x) == State(b, c, d, a);
    b := II(b, c, d, a, x[1], 21, 0x85845dd1);
    NextStep(55, s, x);
    assert Steps(56, s, x) == State(a, b, c, d);
    a := II(a, b, c, d, x[8], 6, 0x6fa87e4f);
    NextStep(56, s, x);
    assert Steps(57, s, x) == State(d, a, b, c);
    d := II(d, a, b, c, x[15], 10, 0xfe2ce6e0);
    NextStep(57, s, x);
    assert Steps(58, s, x) == State(c, d, a, b);
    c := II(c, d, a, b, x[6], 15, 0xa3014314);
    NextStep(58, s, x);
    assert Steps(59, s, x) == State(b, c, d, a);
    b := II(b, c, d, a, x[13], 21, 0x4e0811a1);
    NextStep(59, s, x);
    assert Steps(60, s, x) == State(a, b, c, d);
    a := II(a, b, c, d, x[4], 6, 0xf7537e82);
    NextStep(60, s, x);
    assert Steps(61, s, x) == State(d, a, b, c);
    d := II(d, a, b, c, x[11], 10, 0xbd3af235);
    NextStep(61, s, x);
    assert Steps(62, s, x) == State(c, d, a, b);
    c := II(c, d, a, b, x[2], 15, 0x2ad7d2bb);
    NextStep(62, s, x);
    assert Steps(63, s, x) == State(b, c, d, a);
    b := II(b, c, d, a, x[9], 21, 0xeb86d391);
    NextStep(63, s, x);
    assert Steps(64, s, x) == State(a, b, c, d);
  }

  // ---------- The recurrence is a bijection for every block ----------

  function UnTurn(f: uint32, r: uint32, b: uint32, x: uint32, s: nat, ac: uint32): uint32
    requires 0 < s < 32
  {
    Sub(Sub(Sub(RotateRight(Sub(r, b), s), ac), x), f)
  }

  function UnStep(i: Index, t: State, x: seq<uint32>): State
    requires |x| == 16
  {
    State(UnTurn(Auxiliary(i, t.c, t.d, t.a), t.b, t.c, x[WordIndex(i)], Shift(i), Constant(i)), t.c, t.d, t.a)
  }

  function UnSteps(n: nat, t: State, x: seq<uint32>): State
    requires n <= 64 && |x| == 16
  {
    if n == 0 then t else UnSteps(n - 1, UnStep(n - 1, t, x), x)
  }

  lemma RotationsCancel(x: uint32, n: nat)
    requires n <= 32
    ensures RotateRight(RotateLeft(x, n), n) == x
    ensures RotateLeft(RotateRight(x, n), n) == x
  {
    hide Pow2, ExchangeHalves;
    Pow2Complements(n);
    ExchangesCancel(x, Pow2(n), Pow2(32 - n));
    ExchangesCancel(x, Pow2(32 - n), Pow2(n));
  }

  lemma SumsCancel(x: uint32, y: uint32)
    ensures Sub(Add(x, y), y) == x && Add(Sub(x, y), y) == x
  {
  }

  lemma TurnsCancel(f: uint32, a: uint32, b: uint32, x: uint32, s: nat, ac: uint32)
    requires 0 < s < 32
    ensures UnTurn(f, Turn(f, a, b, x, s, ac), b, x, s, ac) == a
    ensures Turn(f, UnTurn(f, a, b, x, s, ac), b, x, s, ac) == a
  {
    hide RotateLeft, Add, Sub, Pow2;
    RotationsCancel(Add(Add(Add(a, f), x), ac), s);
    SumsCancel(RotateLeft(Add(Add(Add(a, f), x), ac), s), b);
    SumsCancel(Add(Add(a, f), x), ac);
    SumsCancel(Add(a, f), x);
    SumsCancel(a, f);

    var r := RotateRight(Sub(a, b), s);
    RotationsCancel(Sub(a, b), s);
    SumsCancel(a, b);
    SumsCancel(r, ac);
    SumsCancel(Sub(r, ac), x);
    SumsCancel(Sub(Sub(r, ac), x), f);
  }

  lemma StepsCancel(i: Index, s: State, x: seq<uint32>)
    requires |x| == 16
    ensures UnStep(i, Step(i, s, x), x) == s
    ensures Step(i, UnStep(i, s, x), x) == s
  {
    hide F, G, H, I, Turn, UnTurn, Constant;
    TurnsCancel(Auxiliary(i, s.b, s.c, s.d), s.a, s.b, x[WordIndex(i)], Shift(i), Constant(i));
    TurnsCancel(Auxiliary(i, s.c, s.d, s.a), s.b, s.c, x[WordIndex(i)], Shift(i), Constant(i));
  }

  /** For every block, the sixty-four operations before the feed-forward permute the states: UnSteps is the
      inverse, on both sides, of any number of operations. */
  lemma {:induction false} CompressionCoreIsBijective(n: nat, s: State, x: seq<uint32>)
    requires n <= 64 && |x| == 16
    ensures UnSteps(n, Steps(n, s, x), x) == s
    ensures Steps(n, UnSteps(n, s, x), x) == s
  {
    hide Step, UnStep;
    if n > 0 {
      StepsCancel(n - 1, Steps(n - 1, s, x), x);
      CompressionCoreIsBijective(n - 1, s, x);
      CompressionCoreIsBijective(n - 1, UnStep(n - 1, s, x), x);
      StepsCancel(n - 1, s, x);
    }
  }
}
