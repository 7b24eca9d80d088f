/** GUIDs and their text (`src/common/guid.h`, `src/common/guid.cpp`). */
module Guids {
  import opened Connections
  import opened ConnectionCaches

  const WORD := 0x1_0000_0000
  const HALF := 0x1_0000

  /** The upper and lower half of a word, `w >> 16` and `w & 0xFFFF`. */
  function High(w: Word32): nat {
    w / HALF
  }

  function Low(w: Word32): nat {
    w % HALF
  }

  datatype Guid = Guid(a: Word32, b: Word32, c: Word32, d: Word32)

  // ----- Hexadecimal digits -----

  function HexDigit(n: nat): char
    requires n < 16
  {
    if n < 10 then '0' + n as char else 'A' + (n - 10) as char
  }

  predicate IsHexDigit(c: char) {
    '0' <= c <= '9' || 'A' <= c <= 'F' || 'a' <= c <= 'f'
  }

  predicate IsUpperHexDigit(c: char) {
    '0' <= c <= '9' || 'A' <= c <= 'F'
  }

  /** Either case is read. */
  function DigitValue(c: char): (n: nat)
    requires IsHexDigit(c)
    ensures n < 16
  {
    if c <= '9' then (c - '0') as nat else if c <= 'F' then (c - 'A') as nat + 10 else (c - 'a') as nat + 10
  }

  /** `%0kX` of a number with no more than `k` digits. */
  function Hex(w: nat, k: nat): (s: string)
    ensures |s| == k && forall i :: 0 <= i < k ==> IsUpperHexDigit(s[i])
  {
    if k == 0 then [] else Hex(w / 16, k - 1) + [HexDigit(w % 16)]
  }

  predicate IsHex(s: string) {
    forall i :: 0 <= i < |s| ==> IsHexDigit(s[i])
  }

  predicate IsUpperHex(s: string) {
    forall i :: 0 <= i < |s| ==> IsUpperHexDigit(s[i])
  }

  function Accumulate(s: string): nat
    requires IsHex(s)
  {
    if s == [] then 0 else Accumulate(s[..|s| - 1]) * 16 + DigitValue(s[|s| - 1])
  }

  /** `hex_to_int`; text that is no number reads as 0. */
  function FromHex(s: string): nat {
    if IsHex(s) then Accumulate(s) else 0
  }

  function Pow16(k: nat): nat {
    if k == 0 then 1 else 16 * Pow16(k - 1)
  }

  lemma {:induction false} HexRoundTrip(w: nat, k: nat)
    requires w < Pow16(k)
    ensures FromHex(Hex(w, k)) == w
  {
    if k > 0 {
      HexRoundTrip(w / 16, k - 1);
      assert Hex(w, k)[..k - 1] == Hex(w / 16, k - 1);
    }
  }

  lemma {:induction false} TextRoundTrip(s: string)
    requires IsUpperHex(s)
    ensures Hex(FromHex(s), |s|) == s && FromHex(s) < Pow16(|s|)
  {
    if s != [] {
      var init, c := s[..|s| - 1], s[|s| - 1];
      TextRoundTrip(init);
      assert s == init + [c];
      assert FromHex(s) == FromHex(init) * 16 + DigitValue(c);
      AppendDigit(FromHex(init), DigitValue(c), Pow16(|init|));
      DigitText(c);
    }
  }

  lemma AppendDigit(w: nat, d: nat, bound: nat)
    requires d < 16
    ensures (w * 16 + d) / 16 == w && (w * 16 + d) % 16 == d
    ensures w < bound ==> w * 16 + d < 16 * bound
  {
  }

  lemma DigitText(c: char)
    requires IsUpperHexDigit(c)
    ensures HexDigit(DigitValue(c)) == c
  {
  }

  lemma Powers()
    ensures Pow16(4) == HALF && Pow16(8) == WORD
  {
    assert Pow16(3) == 0x1000;
    assert Pow16(6) == 0x100_0000;
  }

  // ----- Splitting the text -----

  /** `split("-")`: empty parts are kept. */
  function Split(s: string): (parts: seq<string>)
    ensures parts != []
  {
    if s == [] then [""]
    else
      var rest := Split(s[1..]);
      if s[0] == '-' then [""] + rest else [[s[0]] + rest[0]] + rest[1..]
  }

  predicate NoDash(s: string) {
    forall i :: 0 <= i < |s| ==> s[i] != '-'
  }

  lemma {:induction false} SplitNoDash(s: string)
    requires NoDash(s)
    ensures Split(s) == [s]
  {
    if s != [] {
      SplitNoDash(s[1..]);
      assert [s[0]] + s[1..] == s;
    }
  }

  lemma {:induction false} SplitAtDash(s: string, rest: string)
    requires NoDash(s)
    ensures Split(s + "-" + rest) == [s] + Split(rest)
  {
    var t := s + "-" + rest;
    if s == [] {
      assert t[1..] == rest;
    } else {
      SplitAtDash(s[1..], rest);
      assert t[1..] == s[1..] + "-" + rest;
      assert [s[0]] + s[1..] == s;
    }
  }

  /** Five parts with dashes between them. */
  function Dashed(p: string, q: string, r: string, s: string, t: string): string {
    p + "-" + (q + "-" + (r + "-" + (s + "-" + t)))
  }

  /** Dash-free parts joined with dashes are split into those parts. */
  lemma SplitFive(p: string, q: string, r: string, s: string, t: string)
    requires NoDash(p) && NoDash(q) && NoDash(r) && NoDash(s) && NoDash(t)
    ensures Split(Dashed(p, q, r, s, t)) == [p, q, r, s, t]
  {
    var a := s + "-" + t;
    var b := r + "-" + a;
    var c := q + "-" + b;
    assert Split(t) == [t] by { SplitNoDash(t); }
    assert Split(a) == [s, t] by { SplitAtDash(s, t); }
    assert Split(b) == [r, s, t] by { SplitAtDash(r, a); }
    assert Split(c) == [q, r, s, t] by { SplitAtDash(q, b); }
    SplitAtDash(p, c);
  }

  // ----- Printing and parsing -----

  /** `substr(0, n)` and `substr(n)` */
  function Front(s: string, n: nat): string {
    if n <= |s| then s[..n] else s
  }

  function Back(s: string, n: nat): string {
    if n <= |s| then s[n..] else ""
  }

  /** `to_string` */
  function ToString(g: Guid): string {
    Dashed(Hex(g.a, 8), Hex(High(g.b), 4), Hex(Low(g.b), 4), Hex(High(g.c), 4), Hex(Low(g.c), 4) + Hex(g.d, 8))
  }

  /** `(x << 16) + y`, kept to 32 bits */
  function Joined(x: nat, y: nat): Word32 {
    (x * HALF + y) % WORD
  }

  lemma JoinedHalves(w: Word32, x: nat, y: nat)
    ensures Joined(High(w), Low(w)) == w && High(w) < HALF && Low(w) < HALF
    ensures x < HALF && y < HALF ==> High(Joined(x, y)) == x && Low(Joined(x, y)) == y
  {
  }

  /** `_parse`: only the number of parts is checked; sums are kept to 32 bits. */
  function Parse(s: string): Option<Guid> {
    var bits := Split(s);
    if |bits| != 5 then None
    else Some(Guid(FromHex(bits[0]) % WORD,
                   Joined(FromHex(bits[1]), FromHex(bits[2])),
                   Joined(FromHex(bits[3]), FromHex(Front(bits[4], 4))),
                   FromHex(Back(bits[4], 4)) % WORD))
  }

  lemma NoDashTogether(s: string, t: string)
    requires IsUpperHex(s) && IsUpperHex(t)
    ensures NoDash(s + t)
  {
  }

  lemma LastGroup(s: string, t: string)
    requires |s| == 4
    ensures Front(s + t, 4) == s && Back(s + t, 4) == t
  {
  }

  lemma ParseFive(s: string, p: string, q: string, r: string, t: string, u: string)
    requires Split(s) == [p, q, r, t, u]
    ensures Parse(s) == Some(Guid(FromHex(p) % WORD, Joined(FromHex(q), FromHex(r)),
                                  Joined(FromHex(t), FromHex(Front(u, 4))), FromHex(Back(u, 4)) % WORD))
  {
  }

  lemma PrintedWords(g: Guid)
    ensures FromHex(Hex(g.a, 8)) % WORD == g.a && FromHex(Hex(g.d, 8)) % WORD == g.d
    ensures Joined(FromHex(Hex(High(g.b), 4)), FromHex(Hex(Low(g.b), 4))) == g.b
    ensures Joined(FromHex(Hex(High(g.c), 4)), FromHex(Hex(Low(g.c), 4))) == g.c
  {
    hide Hex, FromHex, Joined, High, Low, Pow16;
    Powers();
    JoinedHalves(g.b, 0, 0);
    JoinedHalves(g.c, 0, 0);
    HexRoundTrip(g.a, 8);
    HexRoundTrip(High(g.b), 4);
    HexRoundTrip(Low(g.b), 4);
    HexRoundTrip(High(g.c), 4);
    HexRoundTrip(Low(g.c), 4);
    HexRoundTrip(g.d, 8);
  }

  lemma PrintedParts(g: Guid)
    ensures Split(ToString(g))
            == [Hex(g.a, 8), Hex(High(g.b), 4), Hex(Low(g.b), 4), Hex(High(g.c), 4), Hex(Low(g.c), 4) + Hex(g.d, 8)]
    ensures Front(Hex(Low(g.c), 4) + Hex(g.d, 8), 4) == Hex(Low(g.c), 4)
    ensures Back(Hex(Low(g.c), 4) + Hex(g.d, 8), 4) == Hex(g.d, 8)
  {
    LastGroup(Hex(Low(g.c), 4), Hex(g.d, 8));
    NoDashTogether(Hex(Low(g.c), 4), Hex(g.d, 8));
    SplitFive(Hex(g.a, 8), Hex(High(g.b), 4), Hex(Low(g.b), 4), Hex(High(g.c), 4), Hex(Low(g.c), 4) + Hex(g.d, 8));
  }

  /** Printing and parsing a GUID gives it back, for all four words. */
  lemma PrintParse(g: Guid)
    ensures Parse(ToString(g)) == Some(g)
  {
    hide *;
    PrintedWords(g);
    PrintedParts(g);
    ParseFive(ToString(g), Hex(g.a, 8), Hex(High(g.b), 4), Hex(Low(g.b), 4), Hex(High(g.c), 4),
              Hex(Low(g.c), 4) + Hex(g.d, 8));
  }

  /** Groups of 8, 4, 4, 4 and 12 upper-case digits. */
  predicate IsCanonical(s: string) {
    && |s| == 36
    && s[8] == '-' && s[13] == '-' && s[18] == '-' && s[23] == '-'
    && IsUpperHex(s[..8]) && IsUpperHex(s[9..13]) && IsUpperHex(s[14..18]) && IsUpperHex(s[19..23])
    && IsUpperHex(s[24..])
  }

  lemma PrintsCanonical(g: Guid)
    ensures IsCanonical(ToString(g))
  {
    var s := ToString(g);
    assert s[..8] == Hex(g.a, 8) && s[9..13] == Hex(High(g.b), 4) && s[14..18] == Hex(Low(g.b), 4)
        && s[19..23] == Hex(High(g.c), 4) && s[24..] == Hex(Low(g.c), 4) + Hex(g.d, 8);
  }

  lemma CanonicalParts(s: string)
    requires IsCanonical(s)
    ensures s == Dashed(s[..8], s[9..13], s[14..18], s[19..23], s[24..])
  {
    assert s[19..] == s[19..23] + "-" + s[24..];
    assert s[14..] == s[14..18] + "-" + s[19..];
    assert s[9..] == s[9..13] + "-" + s[14..];
    assert s == s[..8] + "-" + s[9..];
  }

  lemma CanonicalWords(s: string)
    requires IsCanonical(s)
    ensures Hex(FromHex(s[..8]), 8) == s[..8] && FromHex(s[..8]) < WORD
    ensures Hex(FromHex(s[9..13]), 4) == s[9..13] && FromHex(s[9..13]) < HALF
    ensures Hex(FromHex(s[14..18]), 4) == s[14..18] && FromHex(s[14..18]) < HALF
    ensures Hex(FromHex(s[19..23]), 4) == s[19..23] && FromHex(s[19..23]) < HALF
    ensures Hex(FromHex(s[24..28]), 4) == s[24..28] && FromHex(s[24..28]) < HALF
    ensures Hex(FromHex(s[28..]), 8) == s[28..] && FromHex(s[28..]) < WORD
  {
    Powers();
    assert IsUpperHex(s[24..28]) && IsUpperHex(s[28..]) by {
      assert forall i :: 0 <= i < 4 ==> s[24..28][i] == s[24..][i];
      assert forall i :: 0 <= i < 8 ==> s[28..][i] == s[24..][i + 4];
    }
    hide Hex, FromHex, Pow16;
    TextRoundTrip(s[..8]);
    TextRoundTrip(s[9..13]);
    TextRoundTrip(s[14..18]);
    TextRoundTrip(s[19..23]);
    TextRoundTrip(s[24..28]);
    TextRoundTrip(s[28..]);
  }

  lemma CanonicalSplit(s: string)
    requires IsCanonical(s)
    ensures Split(s) == [s[..8], s[9..13], s[14..18], s[19..23], s[24..]]
    ensures Front(s[24..], 4) == s[24..28] && Back(s[24..], 4) == s[28..] && s[24..] == s[24..28] + s[28..]
  {
    CanonicalParts(s);
    SplitFive(s[..8], s[9..13], s[14..18], s[19..23], s[24..]);
  }

  lemma SmallWord(x: nat)
    requires x < WORD
    ensures x % WORD == x
  {
  }

  lemma ReprintedWords(a: Word32, q: nat, r: nat, t: nat, u: nat, d: Word32)
    requires q < HALF && r < HALF && t < HALF && u < HALF
    ensures ToString(Guid(a, Joined(q, r), Joined(t, u), d))
            == Dashed(Hex(a, 8), Hex(q, 4), Hex(r, 4), Hex(t, 4), Hex(u, 4) + Hex(d, 8))
  {
    hide Hex, Dashed, Joined, High, Low;
    JoinedHalves(0, q, r);
    JoinedHalves(0, t, u);
  }

  lemma CanonicalText(s: string)
    requires IsCanonical(s) && |s| == 36
    ensures Parse(s).Some? && ToString(Parse(s).value) == s
  {
    hide *;
    CanonicalParts(s);
    CanonicalWords(s);
    CanonicalSplit(s);
    SmallWord(FromHex(s[..8]));
    SmallWord(FromHex(s[28..]));
    ParseFive(s, s[..8], s[9..13], s[14..18], s[19..23], s[24..]);
    ReprintedWords(FromHex(s[..8]), FromHex(s[9..13]), FromHex(s[14..18]), FromHex(s[19..23]), FromHex(s[24..28]),
      FromHex(s[28..]));
  }

  /** Parsing and printing gives the text back exactly when it is canonical. */
  lemma ParsePrint(s: string)
    ensures (Parse(s).Some? && ToString(Parse(s).value) == s) <==> IsCanonical(s)
  {
    assert IsCanonical(s) ==> |s| == 36;
    hide Parse, ToString, IsCanonical;
    if Parse(s).Some? {
      PrintsCanonical(Parse(s).value);
    }
    if IsCanonical(s) {
      CanonicalText(s);
    }
  }

  // ----- New GUIDs -----

  /** The masks of `create_guid`: the digit of the version is set, and the two highest bits of the variant. */
  function WithVersion(b: Word32): Word32 {
    b - b / 0x1000 % 16 * 0x1000 + 0x4000
  }

  function WithVariant(c: Word32): Word32 {
    c % 0x4000_0000 + 0x8000_0000
  }

  /** One binary digit, from the lowest. */
  function Bit(w: nat, k: nat): (n: nat)
    ensures n < 2
  {
    if k == 0 then w % 2 else Bit(w / 2, k - 1)
  }

  function Pow2(k: nat): (p: nat)
    ensures p > 0
  {
    if k == 0 then 1 else 2 * Pow2(k - 1)
  }

  /** The digits of a number put together from a low part of `size` digits and what is above. */
  lemma {:induction false} BitOfParts(high: nat, low: nat, size: nat, k: nat)
    requires low < Pow2(size)
    ensures Bit(high * Pow2(size) + low, k) == if k < size then Bit(low, k) else Bit(high, k - size)
    decreases size
  {
    if size > 0 {
      var w := high * Pow2(size) + low;
      assert high * Pow2(size) == 2 * (high * Pow2(size - 1));
      assert w / 2 == high * Pow2(size - 1) + low / 2 && w % 2 == low % 2;
      if k > 0 {
        BitOfParts(high, low / 2, size - 1, k - 1);
      }
    }
  }

  lemma {:induction false} BitOfOnes(size: nat, k: nat)
    ensures Bit(Pow2(size) - 1, k) == if k < size then 1 else 0
    decreases size
  {
    if size == 0 {
      BitOfZero(k);
    } else if k > 0 {
      assert (Pow2(size) - 1) / 2 == Pow2(size - 1) - 1;
      BitOfOnes(size - 1, k - 1);
    }
  }

  lemma {:induction false} BitOfZero(k: nat)
    ensures Bit(0, k) == 0
  {
    if k > 0 {
      BitOfZero(k - 1);
    }
  }

  lemma PowersOfTwo()
    ensures Pow2(2) == 4 && Pow2(4) == 16 && Pow2(12) == 0x1000 && Pow2(16) == HALF && Pow2(30) == 0x4000_0000
  {
    assert Pow2(8) == 0x100;
    assert Pow2(20) == 0x10_0000;
    assert Pow2(28) == 0x1000_0000;
  }

  lemma BitOfWord(high: nat, digit: nat, low: nat, k: nat)
    requires digit < 16 && low < 0x1000
    ensures Bit(high * HALF + digit * 0x1000 + low, k)
            == if k < 12 then Bit(low, k) else if k < 16 then Bit(digit, k - 12) else Bit(high, k - 16)
  {
    PowersOfTwo();
    BitOfParts(high, digit * 0x1000 + low, 16, k);
    BitOfParts(digit, low, 12, k);
    hide Bit, Pow2;
  }

  lemma VersionMaskBits(k: nat)
    requires k < 32
    ensures Bit(0xffff_0fff, k) == if k < 12 || k >= 16 then 1 else 0
    ensures Bit(0x4000, k) == if k == 14 then 1 else 0
    ensures 12 <= k < 16 ==> Bit(4, k - 12) == if k == 14 then 1 else 0
  {
    PowersOfTwo();
    BitsOfFour();
    hide Bit, Pow2;
    assert 0xffff_0fff == 0xffff * HALF + 0 * 0x1000 + 0xfff && 0x4000 == 0 * HALF + 4 * 0x1000 + 0;
    BitOfWord(0xffff, 0, 0xfff, k);
    BitOfWord(0, 4, 0, k);
    if k < 12 {
      BitOfOnes(12, k);
      BitOfZero(k);
    } else if k < 16 {
      BitOfZero(k - 12);
      assert k - 12 == 0 || k - 12 == 1 || k - 12 == 2 || k - 12 == 3;
    } else {
      BitOfOnes(16, k - 16);
      BitOfZero(k - 16);
    }
  }

  lemma BitsOfFour()
    ensures Bit(4, 0) == 0 && Bit(4, 1) == 0 && Bit(4, 2) == 1 && Bit(4, 3) == 0
  {
    assert Bit(1, 0) == 1 && Bit(1, 1) == Bit(0, 0) == 0;
    assert Bit(2, 0) == 0 && Bit(2, 1) == Bit(1, 0) && Bit(2, 2) == Bit(1, 1);
    assert Bit(4, 1) == Bit(2, 0) && Bit(4, 2) == Bit(2, 1) && Bit(4, 3) == Bit(2, 2);
  }

  lemma VersionOnBits(b: Word32, k: nat)
    requires k < 32
    ensures Bit(WithVersion(b), k) == Masked(b, 0xffff_0fff, 0x4000, k)
  {
    VersionMaskBits(k);
    hide Bit, Pow2;
    BitOfWord(b / HALF, b / 0x1000 % 16, b % 0x1000, k);
    BitOfWord(b / HALF, 4, b % 0x1000, k);
    assert WithVersion(b) == b / HALF * HALF + 4 * 0x1000 + b % 0x1000;
    assert b == b / HALF * HALF + b / 0x1000 % 16 * 0x1000 + b % 0x1000;
  }

  lemma VariantOnBits(c: Word32, k: nat)
    requires k < 32
    ensures Bit(WithVariant(c), k) == Masked(c, 0x3fff_ffff, 0x8000_0000, k)
  {
    PowersOfTwo();
    BitOfParts(c / 0x4000_0000, c % 0x4000_0000, 30, k);
    BitOfParts(2, c % 0x4000_0000, 30, k);
    BitOfParts(2, 0, 30, k);
    BitOfOnes(30, k);
    BitOfZero(k);
    assert k >= 30 ==> k - 30 == 0 || k - 30 == 1;
    assert Bit(2, 0) == 0 && Bit(2, 1) == Bit(1, 0) == 1;
    hide Bit, Pow2;
    assert WithVariant(c) == 2 * 0x4000_0000 + c % 0x4000_0000;
  }

  /** A digit of `(w & mask) | set`. */
  function Masked(w: nat, mask: nat, bits: nat, k: nat): nat {
    if Bit(bits, k) == 1 || (Bit(w, k) == 1 && Bit(mask, k) == 1) then 1 else 0
  }

  /** The masks, digit by digit, are the bit operations they are written with. */
  lemma MasksOnBits(b: Word32, c: Word32, k: nat)
    requires k < 32
    ensures Bit(WithVersion(b), k) == Masked(b, 0xffff_0fff, 0x0000_4000, k)
    ensures Bit(WithVariant(c), k) == Masked(c, 0x3fff_ffff, 0x8000_0000, k)
  {
    VersionOnBits(b, k);
    VariantOnBits(c, k);
    hide *;
  }

  /** `create_guid`, from four random words */
  function Create(a: Word32, b: Word32, c: Word32, d: Word32): Guid {
    Guid(a, WithVersion(b), WithVariant(c), d)
  }

  /** The first of four digits. */
  lemma FirstOfFour(w: nat)
    requires w < HALF
    ensures Hex(w, 4)[0] == HexDigit(w / 0x1000)
  {
    assert Hex(w, 4)[0] == Hex(w / 16, 3)[0] == Hex(w / 16 / 16, 2)[0] == Hex(w / 16 / 16 / 16, 1)[0];
    assert w / 16 / 16 / 16 == w / 0x1000;
  }

  lemma VersionDigits(b: Word32, c: Word32)
    ensures WithVersion(b) % HALF / 0x1000 == 4
    ensures 8 <= WithVariant(c) / HALF / 0x1000 <= 11
    ensures WithVersion(b) % 0x1000 == b % 0x1000 && WithVersion(b) / HALF == b / HALF
    ensures WithVariant(c) % 0x4000_0000 == c % 0x4000_0000
  {
    VersionParts(b / HALF, b % 0x1000);
    VariantParts(c % 0x4000_0000);
    assert b == b / HALF * HALF + b / 0x1000 % 16 * 0x1000 + b % 0x1000;
  }

  lemma PartsOfHalf(high: nat, low: nat)
    requires low < HALF
    ensures (high * HALF + low) / HALF == high && (high * HALF + low) % HALF == low
  {
  }

  lemma PartsOfDigit(high: nat, low: nat)
    requires low < 0x1000
    ensures (high * 0x1000 + low) / 0x1000 == high && (high * 0x1000 + low) % 0x1000 == low
  {
  }

  lemma VersionParts(high: nat, low: nat)
    requires high < HALF && low < 0x1000
    ensures var w := high * HALF + 4 * 0x1000 + low;
            w % HALF / 0x1000 == 4 && w % 0x1000 == low && w / HALF == high
  {
    PartsOfHalf(high, 4 * 0x1000 + low);
    PartsOfDigit(4, low);
    PartsOfDigit(high * 16 + 4, low);
    assert high * HALF + 4 * 0x1000 + low == (high * 16 + 4) * 0x1000 + low;
  }

  lemma VariantParts(low: nat)
    requires low < 0x4000_0000
    ensures var w := low + 0x8000_0000; 8 <= w / HALF / 0x1000 <= 11 && w % 0x4000_0000 == low
  {
    var w := low + 0x8000_0000;
    assert 0x8000 <= w / HALF < 0xC000;
  }

  /**
    Every new GUID prints with version digit 4 and variant digit 8, 9, A or B (section 5.4 of RFC 9562),
    and keeps its 122 other random bits.
   */
  lemma CreatedVersion(a: Word32, b: Word32, c: Word32, d: Word32)
    ensures var s := ToString(Create(a, b, c, d)); |s| == 36 && s[14] == '4' && s[19] in "89AB"
    ensures Create(a, b, c, d).b % 0x1000 == b % 0x1000 && Create(a, b, c, d).b / HALF == b / HALF
    ensures Create(a, b, c, d).c % 0x4000_0000 == c % 0x4000_0000
    ensures Create(a, b, c, d).a == a && Create(a, b, c, d).d == d
  {
    var g := Create(a, b, c, d);
    var s := ToString(g);
    VersionDigits(b, c);
    PrintedGroups(g);
    assert s[14] == s[14..18][0] && s[19] == s[19..23][0];
    FirstOfFour(Low(g.b));
    FirstOfFour(High(g.c));
    hide ToString, WithVersion, WithVariant, Hex;
    var n := High(g.c) / 0x1000;
    assert n == 8 || n == 9 || n == 10 || n == 11;
  }

  lemma PrintedGroups(g: Guid)
    ensures var s := ToString(g); |s| == 36 && s[14..18] == Hex(Low(g.b), 4) && s[19..23] == Hex(High(g.c), 4)
  {
  }
}
