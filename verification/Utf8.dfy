/** Strict UTF-8 (src/components/Unicode/Unicode.cpp, UnicodeTables.cpp) against RFC 3629. */
module Utf8 {
  import opened Basics

  /** Unicode scalar values: code points but for the surrogates. */
  predicate IsScalar(c: int)
  {
    0 <= c <= 0x10FFFF && !(0xD800 <= c <= 0xDFFF)
  }

  /** Section 3 of RFC 3629. */
  function Encode(c: nat): seq<byte>
    requires IsScalar(c)
  {
    if c < 0x80 then [c]
    else if c < 0x800 then [0xC0 + c / 64, 0x80 + c % 64]
    else if c < 0x10000 then [0xE0 + c / 64 / 64, 0x80 + c / 64 % 64, 0x80 + c % 64]
    else [0xF0 + c / 64 / 64 / 64, 0x80 + c / 64 / 64 % 64, 0x80 + c / 64 % 64, 0x80 + c % 64]
  }

  datatype Status = Ok | Incomplete | Invalid

  /** `codePoint` counts only when the status is Ok; `length` is how many bytes to move on by. */
  datatype Decoded = Decoded(status: Status, codePoint: nat, length: nat)

  /** What the first byte fixes: how long the sequence is, the span of its second byte, its own bits. */
  datatype Lead = Lead(length: nat, secondMin: byte, secondMax: byte, bits: nat) | Stray

  function LeadOf(b: byte): Lead
  {
    if b <= 0x7F then Lead(1, 0, 0, b)
    else if 0xC2 <= b <= 0xDF then Lead(2, 0x80, 0xBF, b % 32)
    else if b == 0xE0 then Lead(3, 0xA0, 0xBF, b % 16)
    else if 0xE1 <= b <= 0xEC || b == 0xEE || b == 0xEF then Lead(3, 0x80, 0xBF, b % 16)
    else if b == 0xED then Lead(3, 0x80, 0x9F, b % 16)
    else if b == 0xF0 then Lead(4, 0x90, 0xBF, b % 8)
    else if 0xF1 <= b <= 0xF3 then Lead(4, 0x80, 0xBF, b % 8)
    else if b == 0xF4 then Lead(4, 0x80, 0x8F, b % 8)
    else Stray
  }

  /** Whether a byte may stand at place `i` of a sequence. */
  predicate Continues(lead: Lead, i: nat, b: byte)
    requires lead.Lead?
  {
    if i == 1 then lead.secondMin <= b <= lead.secondMax else 0x80 <= b <= 0xBF
  }

  /** The lead's bits and the low six of each byte after it. */
  function Bits(data: seq<byte>, n: nat): nat
    requires 1 <= n <= |data| && LeadOf(data[0]).Lead?
  {
    if n == 1 then LeadOf(data[0]).bits else Bits(data, n - 1) * 64 + data[n - 1] % 64
  }

  /** The first `n` bytes are as the first one allows. */
  predicate Fits(data: seq<byte>, n: nat)
  {
    && 1 <= n <= |data| && LeadOf(data[0]).Lead? && n <= LeadOf(data[0]).length
    && forall i :: 1 <= i < n ==> Continues(LeadOf(data[0]), i, data[i])
  }

  method DecodeUtf8(data: seq<byte>) returns (r: Decoded)
    requires |data| >= 1
    ensures match r.status
            case Ok =>
              && IsScalar(r.codePoint) && r.codePoint <= 0x10FFFF && !(0xD800 <= r.codePoint < 0xE000)
              && r.length == |Encode(r.codePoint)| && Encode(r.codePoint) <= data
            case Incomplete => r.length == 0 && exists c :: IsScalar(c) && data < Encode(c)
            case Invalid => r.length == 1 && forall c :: IsScalar(c) ==> !(Encode(c) <= data) && !(data < Encode(c))
  {
    var lead := LeadOf(data[0]);
    if lead.Stray? {
      StrayIsInvalid(data);
      return Decoded(Invalid, 0, 1);
    }
    var codePoint: nat := lead.bits;
    for i := 1 to lead.length
      invariant i <= |data| && Fits(data, i) && codePoint == Bits(data, i)
    {
      if i >= |data| {
        CutShortIsIncomplete(data);
        return Decoded(Incomplete, 0, 0);
      }
      if !Continues(lead, i, data[i]) {
        MisfitIsInvalid(data, i);
        return Decoded(Invalid, 0, 1);
      }
      codePoint := codePoint * 64 + data[i] % 64;
    }
    FullFitIsEncoding(data[..lead.length]);
    BitsOfPrefix(data, lead.length, lead.length);
    r := Decoded(Ok, codePoint, lead.length);
  }

  lemma {:induction false} BitsOfPrefix(data: seq<byte>, m: nat, n: nat)
    requires 1 <= n <= m <= |data| && LeadOf(data[0]).Lead?
    ensures Bits(data[..m], n) == Bits(data, n)
  {
    if n > 1 {
      BitsOfPrefix(data, m, n - 1);
    }
  }

  /** The bits of a whole sequence, spelled out. */
  lemma BitsOf(e: seq<byte>)
    requires 1 <= |e| <= 4 && LeadOf(e[0]).Lead?
    ensures var lead: nat := LeadOf(e[0]).bits;
            Bits(e, |e|) ==
            if |e| == 1 then lead
            else if |e| == 2 then lead * 64 + e[1] % 64
            else if |e| == 3 then (lead * 64 + e[1] % 64) * 64 + e[2] % 64
            else ((lead * 64 + e[1] % 64) * 64 + e[2] % 64) * 64 + e[3] % 64
  {
    hide LeadOf;
    assert Bits(e, 1) == LeadOf(e[0]).bits;
    assert |e| >= 2 ==> Bits(e, 2) == Bits(e, 1) * 64 + e[1] % 64;
    assert |e| >= 3 ==> Bits(e, 3) == Bits(e, 2) * 64 + e[2] % 64;
    assert |e| >= 4 ==> Bits(e, 4) == Bits(e, 3) * 64 + e[3] % 64;
  }

  /** A base-64 digit and what is above it. */
  lemma Digits(c: nat)
    ensures c == c / 64 * 64 + c % 64 && 0 <= c % 64 < 64 && (0x80 + c % 64) % 64 == c % 64
  {
  }

  lemma FitsTwo(c: nat)
    requires 0x80 <= c < 0x800
    ensures var e := [0xC0 + c / 64, 0x80 + c % 64]; 0xC2 <= e[0] <= 0xDF && Fits(e, 2) && LeadOf(e[0]).length == 2 && LeadOf(e[0]).bits == c / 64
  {
    var e := [0xC0 + c / 64, 0x80 + c % 64];
    assert 2 <= c / 64 < 32;
    assert Continues(LeadOf(e[0]), 1, e[1]);
  }

  lemma FitsThree(c: nat)
    requires IsScalar(c) && 0x800 <= c < 0x10000
    ensures var e := [0xE0 + c / 64 / 64, 0x80 + c / 64 % 64, 0x80 + c % 64];
            Fits(e, 3) && LeadOf(e[0]).length == 3 && LeadOf(e[0]).bits == c / 64 / 64
  {
    var e := [0xE0 + c / 64 / 64, 0x80 + c / 64 % 64, 0x80 + c % 64];
    var (q, r) := (c / 64, c % 64);
    assert 32 <= q < 1024 && !(864 <= q < 896);
    var (t, u) := (q / 64, q % 64);
    assert 0 <= t < 16 && (t == 0 ==> u >= 32) && (t == 13 ==> u < 32);
    ThreeSpans(e, t, u, r);
  }

  lemma ThreeSpans(e: seq<byte>, t: nat, u: nat, r: nat)
    requires t < 16 && u < 64 && r < 64 && (t == 0 ==> u >= 32) && (t == 13 ==> u < 32)
    requires e == [0xE0 + t, 0x80 + u, 0x80 + r]
    ensures Fits(e, 3) && LeadOf(e[0]).length == 3 && LeadOf(e[0]).bits == t
  {
    assert Continues(LeadOf(e[0]), 1, e[1]) && Continues(LeadOf(e[0]), 2, e[2]);
  }

  lemma FitsFour(c: nat)
    requires 0x10000 <= c <= 0x10FFFF
    ensures var e := [0xF0 + c / 64 / 64 / 64, 0x80 + c / 64 / 64 % 64, 0x80 + c / 64 % 64, 0x80 + c % 64];
            Fits(e, 4) && LeadOf(e[0]).length == 4 && LeadOf(e[0]).bits == c / 64 / 64 / 64
  {
    var e := [0xF0 + c / 64 / 64 / 64, 0x80 + c / 64 / 64 % 64, 0x80 + c / 64 % 64, 0x80 + c % 64];
    var q := c / 64;
    assert 1024 <= q < 17408;
    var t := q / 64;
    assert 16 <= t < 272;
    var (v, u) := (t / 64, t % 64);
    assert 0 <= v < 5 && (v == 0 ==> u >= 16) && (v == 4 ==> u < 16);
    FourSpans(e, v, u, q % 64, c % 64);
  }

  lemma FourSpans(e: seq<byte>, v: nat, u: nat, x: nat, r: nat)
    requires v < 5 && u < 64 && x < 64 && r < 64 && (v == 0 ==> u >= 16) && (v == 4 ==> u < 16)
    requires e == [0xF0 + v, 0x80 + u, 0x80 + x, 0x80 + r]
    ensures Fits(e, 4) && LeadOf(e[0]).length == 4 && LeadOf(e[0]).bits == v
  {
    assert Continues(LeadOf(e[0]), 1, e[1]) && Continues(LeadOf(e[0]), 2, e[2]) && Continues(LeadOf(e[0]), 3, e[3]);
  }

  /** Every encoding is as its first byte asks, as long as that says, and its bits are the code point. */
  lemma EncodingFits(c: nat)
    requires IsScalar(c)
    ensures var e := Encode(c); Fits(e, |e|) && |e| == LeadOf(e[0]).length && Bits(e, |e|) == c
  {
    hide Encode, LeadOf, Bits, Continues, Fits, IsScalar;
    var e := Encode(c);
    LengthIs(c);
    LeadFits(c);
    BitsOf(e);
    EncodedBits(c);
  }

  lemma LengthIs(c: nat)
    requires IsScalar(c)
    ensures |Encode(c)| == if c < 0x80 then 1 else if c < 0x800 then 2 else if c < 0x10000 then 3 else 4
  {
  }

  lemma LeadFits(c: nat)
    requires IsScalar(c)
    ensures var e := Encode(c);
            && LeadOf(e[0]).Lead? && Fits(e, |e|) && LeadOf(e[0]).length == |e|
            && LeadOf(e[0]).bits == if c < 0x80 then c else if c < 0x800 then c / 64 else if c < 0x10000 then c / 64 / 64
                                    else c / 64 / 64 / 64
  {
    if c < 0x80 {
      assert LeadOf(c) == Lead(1, 0, 0, c);
    } else if c < 0x800 {
      FitsTwo(c);
    } else if c < 0x10000 {
      FitsThree(c);
    } else {
      FitsFour(c);
    }
    hide LeadOf, Continues;
  }

  lemma EncodedBits(c: nat)
    requires IsScalar(c)
    ensures var e := Encode(c);
            && (|e| == 2 ==> c == c / 64 * 64 + e[1] % 64)
            && (|e| == 3 ==> c == (c / 64 / 64 * 64 + e[1] % 64) * 64 + e[2] % 64)
            && (|e| == 4 ==> c == ((c / 64 / 64 / 64 * 64 + e[1] % 64) * 64 + e[2] % 64) * 64 + e[3] % 64)
  {
    hide IsScalar;
    Digits(c);
    Digits(c / 64);
    Digits(c / 64 / 64);
  }

  lemma QuotientIs(q: nat, r: nat)
    requires r < 64
    ensures (q * 64 + r) / 64 == q && (q * 64 + r) % 64 == r
  {
  }

  lemma LeadBits(b: byte)
    requires LeadOf(b).Lead?
    ensures match LeadOf(b)
            case Lead(1, _, _, v) => b == v < 0x80
            case Lead(2, lo, hi, v) => b == 0xC0 + v && 2 <= v < 32 && lo == 0x80 && hi == 0xBF
            case Lead(3, lo, hi, v) => b == 0xE0 + v && v < 16 && lo == (if v == 0 then 0xA0 else 0x80) && hi == if v == 13 then 0x9F else 0xBF
            case Lead(4, lo, hi, v) => b == 0xF0 + v && v < 5 && lo == (if v == 0 then 0x90 else 0x80) && hi == if v == 4 then 0x8F else 0xBF
            case _ => false
  {
  }

  lemma FullOne(e: seq<byte>)
    requires |e| == 1 && Fits(e, 1) && LeadOf(e[0]).length == 1
    ensures IsScalar(Bits(e, 1)) && Encode(Bits(e, 1)) == e
  {
  }

  lemma TwoEncode(e: seq<byte>, v: nat)
    requires |e| == 2 && 2 <= v < 32 && e[0] == 0xC0 + v && 0x80 <= e[1] <= 0xBF
    ensures var c := v * 64 + e[1] % 64; IsScalar(c) && Encode(c) == e
  {
    QuotientIs(v, e[1] % 64);
  }

  lemma ThreeEncode(e: seq<byte>, v: nat)
    requires |e| == 3 && v < 16 && e[0] == 0xE0 + v && 0x80 <= e[1] <= 0xBF && 0x80 <= e[2] <= 0xBF
    requires (v == 0 ==> e[1] >= 0xA0) && (v == 13 ==> e[1] <= 0x9F)
    ensures var c := (v * 64 + e[1] % 64) * 64 + e[2] % 64; IsScalar(c) && Encode(c) == e
  {
    QuotientIs(v, e[1] % 64);
    QuotientIs(v * 64 + e[1] % 64, e[2] % 64);
  }

  lemma FourEncode(e: seq<byte>, v: nat)
    requires |e| == 4 && v < 5 && e[0] == 0xF0 + v
    requires 0x80 <= e[1] <= 0xBF && 0x80 <= e[2] <= 0xBF && 0x80 <= e[3] <= 0xBF
    requires (v == 0 ==> e[1] >= 0x90) && (v == 4 ==> e[1] <= 0x8F)
    ensures var c := ((v * 64 + e[1] % 64) * 64 + e[2] % 64) * 64 + e[3] % 64; IsScalar(c) && Encode(c) == e
  {
    FourDigits(v, e[1] % 64, e[2] % 64, e[3] % 64);
  }

  lemma FourDigits(v: nat, a: nat, b: nat, d: nat)
    requires v < 5 && a < 64 && b < 64 && d < 64 && (v == 0 ==> a >= 16) && (v == 4 ==> a < 16)
    ensures var c := ((v * 64 + a) * 64 + b) * 64 + d;
            0x10000 <= c <= 0x10FFFF && c % 64 == d && c / 64 % 64 == b && c / 64 / 64 % 64 == a && c / 64 / 64 / 64 == v
  {
    QuotientIs(v, a);
    QuotientIs(v * 64 + a, b);
    QuotientIs((v * 64 + a) * 64 + b, d);
  }

  lemma FullTwo(e: seq<byte>)
    requires |e| == 2 && Fits(e, 2) && LeadOf(e[0]).length == 2
    ensures IsScalar(Bits(e, 2)) && Encode(Bits(e, 2)) == e
  {
    LeadBits(e[0]);
    BitsOf(e);
    assert Continues(LeadOf(e[0]), 1, e[1]);
    hide LeadOf, Bits, Encode, IsScalar;
    TwoEncode(e, LeadOf(e[0]).bits);
  }

  lemma FullThree(e: seq<byte>)
    requires |e| == 3 && Fits(e, 3) && LeadOf(e[0]).length == 3
    ensures IsScalar(Bits(e, 3)) && Encode(Bits(e, 3)) == e
  {
    LeadBits(e[0]);
    BitsOf(e);
    assert Continues(LeadOf(e[0]), 1, e[1]) && Continues(LeadOf(e[0]), 2, e[2]);
    hide LeadOf, Bits, Encode, IsScalar;
    ThreeEncode(e, LeadOf(e[0]).bits);
  }

  lemma FullFour(e: seq<byte>)
    requires |e| == 4 && Fits(e, 4) && LeadOf(e[0]).length == 4
    ensures IsScalar(Bits(e, 4)) && Encode(Bits(e, 4)) == e
  {
    LeadBits(e[0]);
    BitsOf(e);
    assert Continues(LeadOf(e[0]), 1, e[1]) && Continues(LeadOf(e[0]), 2, e[2]) && Continues(LeadOf(e[0]), 3, e[3]);
    hide LeadOf, Bits, Encode, IsScalar;
    FourEncode(e, LeadOf(e[0]).bits);
  }

  /** Bytes that are as their first one asks and as many as it says are an encoding. */
  lemma FullFitIsEncoding(e: seq<byte>)
    requires Fits(e, |e|) && |e| == LeadOf(e[0]).length
    ensures IsScalar(Bits(e, |e|)) && Encode(Bits(e, |e|)) == e
  {
    assert |e| <= 4;
    hide LeadOf, Bits, Encode, IsScalar;
    if |e| == 1 {
      FullOne(e);
    } else if |e| == 2 {
      FullTwo(e);
    } else if |e| == 3 {
      FullThree(e);
    } else {
      FullFour(e);
    }
  }

  /** Bytes that fit so far and end too soon start some encoding. */
  lemma CutShortIsIncomplete(data: seq<byte>)
    requires Fits(data, |data|) && |data| < LeadOf(data[0]).length
    ensures exists c :: IsScalar(c) && data < Encode(c)
  {
    var lead := LeadOf(data[0]);
    var e := Completed(data, lead.length);
    FullFitIsEncoding(e);
    assert data < Encode(Bits(e, |e|));
  }

  /** Filled up with the least bytes that fit. */
  function Completed(data: seq<byte>, length: nat): (e: seq<byte>)
    requires Fits(data, |data|) && |data| <= length == LeadOf(data[0]).length
    ensures |e| == length && data <= e && Fits(e, length)
    decreases length - |data|
  {
    if |data| == length then data
    else Completed(data + [if |data| == 1 then LeadOf(data[0]).secondMin else 0x80], length)
  }

  /** An encoding that starts the data, or that the data starts, agrees with it on every byte they share. */
  lemma Shared(data: seq<byte>, e: seq<byte>)
    requires e <= data || data < e
    ensures forall i :: 0 <= i < |data| && i < |e| ==> e[i] == data[i]
  {
  }

  lemma StrayIsInvalid(data: seq<byte>)
    requires |data| >= 1 && LeadOf(data[0]).Stray?
    ensures forall c :: IsScalar(c) ==> !(Encode(c) <= data) && !(data < Encode(c))
  {
    forall c | IsScalar(c)
      ensures !(Encode(c) <= data) && !(data < Encode(c))
    {
      var e := Encode(c);
      EncodingFits(c);
      if e <= data || data < e {
        Shared(data, e);
      }
    }
  }

  lemma MisfitIsInvalid(data: seq<byte>, i: nat)
    requires Fits(data, i) && i < |data| && i < LeadOf(data[0]).length && !Continues(LeadOf(data[0]), i, data[i])
    ensures forall c :: IsScalar(c) ==> !(Encode(c) <= data) && !(data < Encode(c))
  {
    forall c | IsScalar(c)
      ensures !(Encode(c) <= data) && !(data < Encode(c))
    {
      var e := Encode(c);
      EncodingFits(c);
      hide Encode, LeadOf, Continues, Bits, IsScalar;
      if e <= data || data < e {
        Shared(data, e);
      }
    }
  }

  /** No two answers fit one input: no encoding starts another, so Ok, Incomplete and Invalid exclude one another. */
  lemma EncodingsArePrefixFree(a: nat, b: nat)
    requires IsScalar(a) && IsScalar(b) && Encode(a) <= Encode(b)
    ensures a == b
  {
    EncodingFits(a);
    EncodingFits(b);
    var (x, y) := (Encode(a), Encode(b));
    hide Encode, LeadOf, Bits;
    assert x[0] == y[0] && x == y;
  }

  /** Six more bits. */
  function WithSix(high: nat, b: byte): nat
  {
    high * 64 + b % 64
  }

  /** The layout of section 3 of RFC 3629: the shortest form, whose bits after the marks are the code point's. */
  lemma EncodingIsLaidOut(c: nat)
    requires IsScalar(c)
    ensures var e := Encode(c);
            && |e| == (if c < 0x80 then 1 else if c < 0x800 then 2 else if c < 0x10000 then 3 else 4)
            && (forall i :: 1 <= i < |e| ==> 0x80 <= e[i] < 0xC0)
            && (|e| == 1 ==> c == e[0])
            && (|e| == 2 ==> 0xC0 <= e[0] < 0xE0 && c == WithSix(e[0] % 32, e[1]))
            && (|e| == 3 ==> 0xE0 <= e[0] < 0xF0 && c == WithSix(WithSix(e[0] % 16, e[1]), e[2]))
            && (|e| == 4 ==> 0xF0 <= e[0] < 0xF8 && c == WithSix(WithSix(WithSix(e[0] % 8, e[1]), e[2]), e[3]))
  {
    hide Encode, IsScalar, Bits;
    LengthIs(c);
    EncodingFits(c);
    BitsOf(Encode(c));
  }
}
