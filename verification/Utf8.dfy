/** The UTF-8 to UTF-16 converter of wnet/utf8.c.

    `Encode8` and `Encode16` are the encodings of section 3 of RFC 3629 and section 2.1
    of RFC 2781.  `Char` says by ranges what the bit manipulation of the code accepts.
    It differs from the standard's decoder in three ways: it takes overlong four-byte
    forms from 0x1000 on, it takes values from 0x110000 up to 0x1FFFFF (which the
    conversion rejects afterwards), and it rejects U+FFFE and U+FFFF.
  */
module Utf8 {
  import opened Bits
  import opened Wrappers

  type Byte = x: int | 0 <= x < 256

  datatype Decoded = Invalid | Scalar(value: int, len: int)

  // ------------------------------------------------------------ the standards

  /** The encoding of a code point below 2^21, shortest form. */
  function Encode8(c: int): (s: seq<Byte>)
    requires 0 <= c < 0x20_0000
    ensures 1 <= |s| <= 4
  {
    if c < 0x80 then [c]
    else if c < 0x800 then [0xc0 + c / 64, 0x80 + c % 64]
    else if c < 0x1_0000 then [0xe0 + c / 4096, 0x80 + c / 64 % 64, 0x80 + c % 64]
    else FourBytes(c)
  }

  function FourBytes(c: int): (s: seq<Byte>)
    requires 0 <= c < 0x20_0000
    ensures |s| == 4
  {
    [0xf0 + c / 0x4_0000, 0x80 + c / 4096 % 64, 0x80 + c / 64 % 64, 0x80 + c % 64]
  }

  function Encode16(c: int): (s: seq<int>)
    requires 0 <= c < 0x11_0000
    ensures |s| == if c < 0x1_0000 then 1 else 2
  {
    if c < 0x1_0000 then [c]
    else [0xd800 + (c - 0x1_0000) / 1024, 0xdc00 + (c - 0x1_0000) % 1024]
  }

  /** Decoding by section 2.2 of RFC 2781. */
  function Decode16(u: seq<int>): Option<seq<int>> {
    if u == [] then Some([])
    else if u[0] < 0xd800 || u[0] > 0xdfff then
      (match Decode16(u[1..]) case None => None case Some(cs) => Some([u[0]] + cs))
    else if u[0] <= 0xdbff && |u| >= 2 && 0xdc00 <= u[1] <= 0xdfff then
      (match Decode16(u[2..])
       case None => None
       case Some(cs) => Some([(u[0] - 0xd800) * 1024 + (u[1] - 0xdc00) + 0x1_0000] + cs))
    else None
  }

  /** The code points the converter lets through. */
  predicate Allowed(c: int) {
    0 <= c < 0x20_0000 && !(0xd800 <= c <= 0xdfff) && c != 0xfffe && c != 0xffff
  }

  // ------------------------------------------------------------ one character

  function Length(lead: Byte): int {
    if lead < 0x80 then 1
    else if 0xc0 <= lead < 0xe0 then 2
    else if 0xe0 <= lead < 0xf0 then 3
    else if 0xf0 <= lead < 0xf8 then 4
    else 0
  }

  function Lead(lead: Byte): int {
    if lead < 0x80 then lead
    else if lead < 0xe0 then lead % 32
    else if lead < 0xf0 then lead % 16
    else lead % 8
  }

  predicate Continues(b: Byte) {
    0x80 <= b < 0xc0
  }

  /** The value with the continuation bytes from `x` on taken in. */
  function Tail(s: seq<Byte>, x: nat, len: int, res: int): (r: Option<int>)
    requires 1 <= x <= |s|
    ensures r.Some? ==> len <= |s| || len <= x
    decreases len - x
  {
    if x >= len then Some(res)
    else if x >= |s| || !Continues(s[x]) then None
    else Tail(s, x + 1, len, res * 64 + s[x] % 64)
  }

  /** The least code point accepted for a length; the standard's last bound would be 0x10000. */
  function Least(len: int): int {
    if len <= 1 then 0 else if len == 2 then 0x80 else if len == 3 then 0x800 else 0x1000
  }

  /** What get_unicode_char_from_utf8 makes of the front of `s`. */
  function Char(s: seq<Byte>): (d: Decoded)
    ensures d.Scalar? ==> 1 <= d.len <= |s|
  {
    if s == [] || Length(s[0]) == 0 then Invalid
    else
      var len := Length(s[0]);
      match Tail(s, 1, len, Lead(s[0]))
      case None => Invalid
      case Some(res) => if Allowed(res) && res >= Least(len) then Scalar(res, len) else Invalid
  }

  /** The shortest form, or the four-byte form of a code point from 0x1000 on. */
  ghost predicate Spells(p: seq<Byte>, c: int)
    requires 0 <= c < 0x20_0000
  {
    p == Encode8(c) || (c >= 0x1000 && p == FourBytes(c))
  }

  function Value(s: seq<Byte>, len: int): int
    requires 1 <= len <= |s| && len <= 4
  {
    if len == 1 then Lead(s[0]) else Value(s, len - 1) * 64 + s[len - 1] % 64
  }

  lemma {:induction false} TailValue(s: seq<Byte>, x: nat, len: int)
    requires 1 <= x <= len <= 4 && x <= |s|
    requires forall i :: 1 <= i < x ==> Continues(s[i])
    ensures var t := Tail(s, x, len, Value(s, x));
      && (t.Some? <==> len <= |s| && forall i :: 1 <= i < len ==> Continues(s[i]))
      && (t.Some? ==> t.value == Value(s, len))
    decreases len - x
  {
    if x < len && x < |s| && Continues(s[x]) {
      TailValue(s, x + 1, len);
    }
  }

  /** When the code accepts, spelled out. */
  lemma CharSpelled(s: seq<Byte>, c: int, len: int)
    ensures Char(s) == Scalar(c, len) <==>
      && 1 <= len <= |s| && len == Length(s[0]) && (forall i :: 1 <= i < len ==> Continues(s[i]))
      && c == Value(s, len) && Allowed(c) && c >= Least(len)
  {
    hide Allowed;
    if s != [] && Length(s[0]) != 0 {
      TailValue(s, 1, Length(s[0]));
    }
  }

  lemma Spelling1(s: seq<Byte>, c: int)
    requires |s| == 1
    ensures Length(s[0]) == 1 && c == Value(s, 1) <==> 0 <= c < 0x80 && s == [c]
  {
  }

  lemma Spelling2(s: seq<Byte>, c: int)
    requires |s| == 2
    ensures Length(s[0]) == 2 && Continues(s[1]) && c == Value(s, 2) <==>
      0 <= c < 0x800 && s == [0xc0 + c / 64, 0x80 + c % 64]
  {
    assert Value(s, 2) == Lead(s[0]) * 64 + s[1] % 64;
  }

  lemma Spelling3(s: seq<Byte>, c: int)
    requires |s| == 3
    ensures Length(s[0]) == 3 && Continues(s[1]) && Continues(s[2]) && c == Value(s, 3) <==>
      0 <= c < 0x1_0000 && s == [0xe0 + c / 4096, 0x80 + c / 64 % 64, 0x80 + c % 64]
  {
    assert Value(s, 3) == (Lead(s[0]) * 64 + s[1] % 64) * 64 + s[2] % 64 by {
      assert Value(s, 2) == Lead(s[0]) * 64 + s[1] % 64;
    }
  }

  lemma Digits(x: int, a: int, b: int, c: int, d: int)
    requires 0 <= b < 64 && 0 <= c < 64 && 0 <= d < 64
    ensures x == ((a * 64 + b) * 64 + c) * 64 + d <==>
      a == x / 0x4_0000 && b == x / 4096 % 64 && c == x / 64 % 64 && d == x % 64
  {
    var y := x / 64;
    var z := y / 64;
    assert x / 4096 == z && x / 0x4_0000 == z / 64;
    assert x == 64 * y + x % 64 && y == 64 * z + y % 64;
  }

  lemma Spelling4(s: seq<Byte>, c: int)
    requires |s| == 4
    ensures Length(s[0]) == 4 && Continues(s[1]) && Continues(s[2]) && Continues(s[3]) && c == Value(s, 4) <==>
      0 <= c < 0x20_0000 && s == FourBytes(c)
  {
    assert Value(s, 4) == ((Lead(s[0]) * 64 + s[1] % 64) * 64 + s[2] % 64) * 64 + s[3] % 64 by {
      assert Value(s, 2) == Lead(s[0]) * 64 + s[1] % 64;
      assert Value(s, 3) == Value(s, 2) * 64 + s[2] % 64;
    }
    hide Value;
    Digits(c, Lead(s[0]), s[1] % 64, s[2] % 64, s[3] % 64);
    FromDigits(s, c);
  }

  lemma FromDigits(s: seq<Byte>, c: int)
    requires |s| == 4
    ensures && Length(s[0]) == 4 && Continues(s[1]) && Continues(s[2]) && Continues(s[3])
            && Lead(s[0]) == c / 0x4_0000 && s[1] % 64 == c / 4096 % 64
            && s[2] % 64 == c / 64 % 64 && s[3] % 64 == c % 64
      <==> 0 <= c < 0x20_0000 && s == FourBytes(c)
  {
    var h, m, l, z := c / 0x4_0000, c / 4096 % 64, c / 64 % 64, c % 64;
    assert 0 <= m < 64 && 0 <= l < 64 && 0 <= z < 64;
    assert 0 <= c < 0x20_0000 <==> 0 <= h < 8;
    Part(s[0], h);
    Rest(s[1], m);
    Rest(s[2], l);
    Rest(s[3], z);
    assert 0 <= c < 0x20_0000 ==> FourBytes(c) == [0xf0 + h, 0x80 + m, 0x80 + l, 0x80 + z];
    hide FourBytes, Length, Continues, Lead;
    assert s == [s[0], s[1], s[2], s[3]];
  }

  lemma Part(b: Byte, h: int)
    ensures Length(b) == 4 && Lead(b) == h <==> 0 <= h < 8 && b == 0xf0 + h
  {
  }

  lemma Rest(b: Byte, m: int)
    requires 0 <= m < 64
    ensures Continues(b) && b % 64 == m <==> b == 0x80 + m
  {
  }

  lemma {:induction false} ValueOfFront(s: seq<Byte>, len: int, k: int)
    requires 1 <= k <= len <= |s| && len <= 4
    ensures Value(s[..len], k) == Value(s, k)
  {
    if k > 1 {
      ValueOfFront(s, len, k - 1);
    }
  }

  /** Exactly what is accepted: a spelling of an allowed code point at the front. */
  lemma CharIff(s: seq<Byte>, c: int, len: int)
    ensures Char(s) == Scalar(c, len) <==>
      Allowed(c) && 1 <= len <= |s| && Spells(s[..len], c)
  {
    CharSpelled(s, c, len);
    if 1 <= len <= |s| && len <= 4 {
      var p := s[..len];
      ValueOfFront(s, len, len);
      assert (forall i :: 1 <= i < len ==> Continues(s[i])) <==> (forall i :: 1 <= i < len ==> Continues(p[i]));
      SpellingIff(p, c);
    }
  }

  lemma SpellingIff(p: seq<Byte>, c: int)
    requires 1 <= |p| <= 4
    ensures && |p| == Length(p[0]) && (forall i :: 1 <= i < |p| ==> Continues(p[i]))
            && c == Value(p, |p|) && Allowed(c) && c >= Least(|p|)
      <==> Allowed(c) && Spells(p, c)
  {
    hide Value, Length, Continues;
    match |p|
    case 1 => Spelling1(p, c);
    case 2 => Spelling2(p, c);
    case 3 => Spelling3(p, c);
    case _ => Spelling4(p, c);
  }

  /** Some overlong forms get through, which RFC 3629 forbids: U+1000 in four bytes. */
  lemma OverlongAccepted()
    ensures Char([0xf0, 0x81, 0x80, 0x80]) == Scalar(0x1000, 4)
    ensures Encode8(0x1000) == [0xe1, 0x80, 0x80]
  {
    var s: seq<Byte> := [0xf0, 0x81, 0x80, 0x80];
    assert s[..4] == s;
    CharIff(s, 0x1000, 4);
  }

  // ------------------------------------------------------------ strings

  /** A C string with its terminator. */
  ghost predicate Terminated(s: seq<Byte>) {
    && s != [] && s[|s| - 1] == 0
    && forall i :: 0 <= i < |s| - 1 ==> s[i] != 0
  }

  predicate Representable(c: int) {
    Allowed(c) && 0 < c < 0x11_0000
  }

  function Before(cs: seq<int>, rest: Option<seq<int>>): Option<seq<int>> {
    match rest
    case None => None
    case Some(ds) => Some(cs + ds)
  }

  /** The code points of a string, if every character is accepted and fits UTF-16. */
  function Scalars(s: seq<Byte>): Option<seq<int>> {
    if s == [] || s[0] == 0 then Some([])
    else
      match Char(s)
      case Invalid => None
      case Scalar(c, len) => if c >= 0x11_0000 then None else Before([c], Scalars(s[len..]))
  }

  function Encode8All(cs: seq<int>): seq<Byte>
    requires forall i :: 0 <= i < |cs| ==> Representable(cs[i])
  {
    if cs == [] then [] else assert Representable(cs[0]); Encode8(cs[0]) + Encode8All(cs[1..])
  }

  function Encode16All(cs: seq<int>): seq<int>
    requires forall i :: 0 <= i < |cs| ==> Representable(cs[i])
  {
    if cs == [] then [] else assert Representable(cs[0]); Encode16(cs[0]) + Encode16All(cs[1..])
  }

  lemma EncodedLead(c: int)
    requires Representable(c)
    ensures Encode8(c)[0] != 0
  {
  }

  lemma ScalarsPrepend(e: seq<Byte>, c: int, rest: seq<Byte>)
    requires Representable(c) && e == Encode8(c)
    ensures Scalars(e + rest) == Before([c], Scalars(rest))
  {
    hide Char, Encode8;
    var s := e + rest;
    EncodedLead(c);
    assert s[..|e|] == e && s[|e|..] == rest && s[0] == e[0];
    CharIff(s, c, |e|);
  }

  /** The standard encoding of any representable string is decoded to that string. */
  lemma {:induction false} EncodingAccepted(cs: seq<int>)
    requires forall i :: 0 <= i < |cs| ==> Representable(cs[i])
    ensures Scalars(Encode8All(cs) + [0]) == Some(cs)
  {
    if cs != [] {
      hide Scalars, Encode8, Representable;
      var e, rest, tail := Encode8(cs[0]), Encode8All(cs[1..]), cs[1..];
      assert Encode8All(cs) + [0] == e + (rest + [0]);
      ScalarsPrepend(e, cs[0], rest + [0]);
      EncodingAccepted(tail);
      assert cs == [cs[0]] + tail;
    }
  }

  lemma CharAllowed(s: seq<Byte>)
    requires s != [] && s[0] != 0 && Char(s).Scalar?
    ensures Allowed(Char(s).value) && Char(s).value > 0
    ensures Terminated(s) ==> Char(s).len < |s| && Terminated(s[Char(s).len..])
  {
    hide Allowed, Value;
    var d := Char(s);
    CharSpelled(s, d.value, d.len);
    assert s[d.len - 1] != 0;
    assert d.value > 0 by {
      Positive(s, d.value, d.len);
    }
  }

  lemma Positive(s: seq<Byte>, c: int, len: int)
    requires Char(s) == Scalar(c, len) && s[0] != 0
    ensures c > 0
  {
    CharSpelled(s, c, len);
  }

  /** The encoding of representable code points is a C string. */
  lemma {:induction false} EncodingTerminated(cs: seq<int>)
    requires forall i :: 0 <= i < |cs| ==> Representable(cs[i])
    ensures Terminated(Encode8All(cs) + [0])
  {
    if cs != [] {
      EncodingTerminated(cs[1..]);
      var e, rest := Encode8(cs[0]), Encode8All(cs[1..]) + [0];
      assert Encode8All(cs) + [0] == e + rest;
      EncodedNonZero(cs[0]);
      assert forall i :: 0 <= i < |rest| - 1 ==> rest[i] != 0;
    }
  }

  lemma EncodedNonZero(c: int)
    requires Representable(c)
    ensures forall i :: 0 <= i < |Encode8(c)| ==> Encode8(c)[i] != 0
  {
  }

  /** `s` is a string of spellings of `cs`, up to its terminator. */
  ghost predicate Spelling(s: seq<Byte>, cs: seq<int>) {
    if cs == [] then s == [] || s[0] == 0
    else Representable(cs[0]) && exists len :: 1 <= len <= |s| && Spells(s[..len], cs[0]) && Spelling(s[len..], cs[1..])
  }

  /** Exactly the strings of spellings are accepted. */
  lemma {:induction false} AcceptedIffSpelled(s: seq<Byte>, cs: seq<int>)
    ensures Scalars(s) == Some(cs) <==> Spelling(s, cs)
    decreases |s|
  {
    hide Char, Spells;
    if s == [] || s[0] == 0 {
      if Spelling(s, cs) && cs != [] {
        var len :| 1 <= len <= |s| && Spells(s[..len], cs[0]) && Spelling(s[len..], cs[1..]);
        CharIff(s, cs[0], len);
        ZeroIsNul(s);
        assert false;
      }
    } else if Char(s).Scalar? {
      var c, len := Char(s).value, Char(s).len;
      CharIff(s, c, len);
      CharAllowed(s);
      if cs != [] {
        AcceptedIffSpelled(s[len..], cs[1..]);
        assert cs == [cs[0]] + cs[1..];
      }
      if Spelling(s, cs) && cs != [] {
        SpelledOnce(s, cs);
      }
    } else if Spelling(s, cs) && cs != [] {
      SpelledOnce(s, cs);
      assert false;
    }
  }

  lemma ZeroIsNul(s: seq<Byte>)
    requires s != [] && s[0] == 0
    ensures Char(s) == Scalar(0, 1)
  {
  }

  lemma SpelledOnce(s: seq<Byte>, cs: seq<int>)
    requires Spelling(s, cs) && cs != []
    ensures s != [] && Char(s).Scalar? && Char(s).value == cs[0] && Spelling(s[Char(s).len..], cs[1..])
  {
    var len :| 1 <= len <= |s| && Spells(s[..len], cs[0]) && Spelling(s[len..], cs[1..]);
    CharIff(s, cs[0], len);
  }

  lemma {:induction false} ScalarsRepresentable(s: seq<Byte>)
    requires Scalars(s).Some?
    ensures forall i :: 0 <= i < |Scalars(s).value| ==> Representable(Scalars(s).value[i])
    decreases |s|
  {
    hide Char;
    if s != [] && s[0] != 0 {
      CharAllowed(s);
      ScalarsRepresentable(s[Char(s).len..]);
    }
  }

  /** What is written decodes to the code points that were read. */
  lemma {:induction false} OutputDecodes(cs: seq<int>)
    requires forall i :: 0 <= i < |cs| ==> Representable(cs[i])
    ensures Decode16(Encode16All(cs)) == Some(cs)
  {
    if cs != [] {
      OutputDecodes(cs[1..]);
      var c, u, rest := cs[0], Encode16All(cs), Encode16All(cs[1..]);
      assert cs == [c] + cs[1..];
      if c < 0x1_0000 {
        assert u[1..] == rest && u[0] == c;
      } else {
        assert u[2..] == rest && u[..2] == Encode16(c);
        assert u[0] == Encode16(c)[0] && u[1] == Encode16(c)[1];
        assert (u[0] - 0xd800) * 1024 + (u[1] - 0xdc00) + 0x1_0000 == c;
      }
    }
  }

  lemma {:induction false} Encode16Append(cs: seq<int>, c: int)
    requires (forall i :: 0 <= i < |cs| ==> Representable(cs[i])) && Representable(c)
    ensures Encode16All(cs + [c]) == Encode16All(cs) + Encode16(c)
  {
    if cs == [] {
      assert cs + [c] == [c];
    } else {
      Encode16Append(cs[1..], c);
      assert (cs + [c])[1..] == cs[1..] + [c];
    }
  }

  // ------------------------------------------------------------ the code

  /** A mask of `m` bits above bit `k`, as it sits in a byte. */
  lemma HighMask(b: Byte, m: nat, k: nat, top: int, unit: int)
    requires m + k == 8 && Pow2(m) == top && Pow2(k) == unit && top * unit == 256
    ensures And(b, (top - 1) * unit) == b / unit % top * unit
  {
    AndField(b, m, k);
  }

  lemma LeadMasks(b: Byte)
    ensures And(b, 0xe0) == 0xc0 <==> 0xc0 <= b < 0xe0
    ensures And(b, 0xf0) == 0xe0 <==> 0xe0 <= b < 0xf0
    ensures And(b, 0xf8) == 0xf0 <==> 0xf0 <= b < 0xf8
  {
    hide And, Pow2;
    SmallPowers();
    HighMask(b, 3, 5, 8, 32);
    HighMask(b, 4, 4, 16, 16);
    HighMask(b, 5, 3, 32, 8);
  }

  lemma ContinuationMask(b: Byte)
    ensures And(b, 0xc0) == 0x80 <==> 0x80 <= b < 0xc0
  {
    hide And, Pow2;
    SmallPowers();
    HighMask(b, 2, 6, 4, 64);
  }

  lemma LowMasks(b: Byte)
    ensures And(b, 0x1f) == b % 32 && And(b, 0x0f) == b % 16 && And(b, 0x07) == b % 8 && And(b, 0x3f) == b % 64
  {
    hide And, Pow2;
    SmallPowers();
    AndLowMask(b, 5);
    AndLowMask(b, 4);
    AndLowMask(b, 3);
    AndLowMask(b, 6);
  }

  lemma SmallPowers()
    ensures Pow2(1) == 2 && Pow2(2) == 4 && Pow2(3) == 8 && Pow2(4) == 16 && Pow2(5) == 32 && Pow2(6) == 64
    ensures Pow2(10) == 1024
  {
    assert Pow2(3) == 8 && Pow2(6) == 64;
    assert Pow2(9) == 512;
  }

  /** The length and the data bits of a first byte; the complements of the masks are written out. */
  method ClassifyLead(b: Byte) returns (len: int, res: int)
    ensures len == Length(b) && (len != 0 ==> res == Lead(b) && res >= 0)
  {
    hide And;
    LeadMasks(b);
    LowMasks(b);
    len, res := 0, 0;
    if b < 0x80 {
      len, res := 1, b;
    } else if And(b, 0xe0) == 0xc0 {
      len, res := 2, And(b, 0x1f);
    } else if And(b, 0xf0) == 0xe0 {
      len, res := 3, And(b, 0x0f);
    } else if And(b, 0xf8) == 0xf0 {
      len, res := 4, And(b, 0x07);
    }
  }

  lemma TailStops(s: seq<Byte>, x: nat, len: int, res: int)
    requires 1 <= x < len && x < |s|
    ensures Tail(s, x, len, res) == if !Continues(s[x]) then None else Tail(s, x + 1, len, res * 64 + s[x] % 64)
  {
  }

  lemma {:induction false} TailBounded(s: seq<Byte>, res: int)
    requires s != [] && Length(s[0]) != 0 && 0 <= res && Length(s[0]) <= |s|
    requires var len := Length(s[0]); Tail(s, 1, len, Lead(s[0])) == Tail(s, len, len, res)
    ensures Tail(s, 1, Length(s[0]), Lead(s[0])) == Some(res) && res < 0x20_0000
  {
    var len := Length(s[0]);
    TailValue(s, 1, len);
    if len >= 2 {
      assert Value(s, 2) == Lead(s[0]) * 64 + s[1] % 64;
    }
    if len >= 3 {
      assert Value(s, 3) == Value(s, 2) * 64 + s[2] % 64;
    }
  }

  /** get_unicode_char_from_utf8, without ever looking behind the terminator. */
  method GetUnicodeChar(src: seq<Byte>, start: nat) returns (ok: bool, next: nat, resp: int)
    requires Terminated(src) && start < |src|
    ensures ok <==> Char(src[start..]).Scalar?
    ensures ok ==> start < next <= |src| && Char(src[start..]) == Scalar(resp, next - start)
  {
    hide And, Or, Tail, Lead;
    ghost var s := src[start..];
    ok, next, resp := false, start, 0;
    var len, res := ClassifyLead(src[start]);
    if len == 0 {
      return;
    }
    for x := 1 to len
      invariant 0 <= res && start + x <= |src| && (x < len ==> src[start + x - 1] != 0)
      invariant Tail(s, 1, len, Lead(s[0])) == Tail(s, x, len, res)
    {
      ContinuationMask(s[x]);
      LowMasks(s[x]);
      TailStops(s, x, len, res);
      if And(src[start + x], 0xc0) != 0x80 {
        return;
      }
      ShiftIn(res, And(src[start + x], 0x3f));
      res := Or(res * 64, And(src[start + x], 0x3f));
    }
    TailBounded(s, res);
    if (res >= 0xd800 && res <= 0xdfff) || res == 0xfffe || res == 0xffff {
      return;
    }
    if (len == 2 && res < 0x80) || (len == 3 && res < 0x800) || (len == 4 && res < 0x1000) {
      return;
    }
    ok, next, resp := true, start + len, res;
  }

  lemma ShiftIn(res: nat, y: nat)
    requires y < 64
    ensures Or(res * 64, y) == res * 64 + y
  {
    SmallPowers();
    OrShifted(res, y, 6);
  }

  lemma SurrogateBits(v: nat)
    requires v < 0x10_0000
    ensures Or(And(v / 1024, 0x3ff), 0xd800) == 0xd800 + v / 1024
    ensures Or(And(v, 0x3ff), 0xdc00) == 0xdc00 + v % 1024
  {
    SmallPowers();
    AndLowMask(v / 1024, 10);
    AndLowMask(v, 10);
    Flagged(54, v / 1024);
    Flagged(55, v % 1024);
  }

  lemma Flagged(x: nat, y: nat)
    requires y < 1024
    ensures Or(y, x * 1024) == x * 1024 + y
  {
    SmallPowers();
    OrShifted(x, y, 10);
    AndCommutes(x * 1024, y);
  }

  /** encode_utf16: store the units of `c` and move on. */
  method StoreUtf16(buf: array<int>, at: nat, c: int) returns (next: nat)
    requires Representable(c) && at + |Encode16(c)| <= buf.Length
    modifies buf
    ensures next == at + |Encode16(c)| && buf[at..next] == Encode16(c)
    ensures buf[..at] == old(buf[..at]) && buf[next..] == old(buf[next..])
  {
    assert !(c >= 0xd800 && c < 0xe000);
    assert c < 0x11_0000;
    if c < 0x1_0000 {
      buf[at] := c;
      next := at + 1;
    } else {
      var v := c - 0x1_0000;
      SurrogateBits(v);
      buf[at] := Or(And(v / 1024, 0x3ff), 0xd800);
      buf[at + 1] := Or(And(v, 0x3ff), 0xdc00);
      next := at + 2;
    }
  }

  /** How far a pass has come: `done` has been read, the rest starts at `next`. */
  ghost predicate Progress(src: seq<Byte>, next: nat, done: seq<int>) {
    && next < |src| && Terminated(src[next..])
    && (forall i :: 0 <= i < |done| ==> Representable(done[i]))
    && Scalars(src) == Before(done, Scalars(src[next..]))
  }

  lemma ProgressStarts(src: seq<Byte>)
    requires Terminated(src)
    ensures Progress(src, 0, [])
  {
    assert src[0..] == src;
    if Scalars(src).Some? {
      assert [] + Scalars(src).value == Scalars(src).value;
    }
  }

  lemma {:induction false} ProgressMoves(src: seq<Byte>, next: nat, done: seq<int>)
    requires Progress(src, next, done) && src[next] != 0
    ensures var d := Char(src[next..]);
      if d.Scalar? && d.value < 0x11_0000
      then Representable(d.value) && Progress(src, next + d.len, done + [d.value])
      else Scalars(src).None?
  {
    hide Char;
    var s := src[next..];
    var d := Char(s);
    if d.Scalar? && d.value < 0x11_0000 {
      CharAllowed(s);
      var rest := s[d.len..];
      assert rest == src[next + d.len..];
      if Scalars(rest).Some? {
        assert done + ([d.value] + Scalars(rest).value) == (done + [d.value]) + Scalars(rest).value;
      }
    }
  }

  lemma ProgressEnds(src: seq<Byte>, next: nat, done: seq<int>)
    requires Progress(src, next, done) && src[next] == 0
    ensures Scalars(src) == Some(done)
  {
    assert done + [] == done;
  }

  /** Both passes read the same characters, so what one accepts leads the way to what the other reads. */
  lemma {:induction false} PrefixOfUnits(cs: seq<int>, k: nat)
    requires (forall i :: 0 <= i < |cs| ==> Representable(cs[i])) && k <= |cs|
    ensures |Encode16All(cs[..k])| + |Encode16All(cs[k..])| == |Encode16All(cs)|
  {
    if k == 0 {
      assert cs[0..] == cs;
    } else {
      var tail := cs[1..];
      PrefixOfUnits(tail, k - 1);
      assert cs[..k][1..] == tail[..k - 1] && cs[k..] == tail[k - 1..];
    }
  }

  /** The first pass: reject, or count the units. */
  method CountUnits(src: seq<Byte>) returns (ok: bool, count: nat)
    requires Terminated(src)
    ensures ok <==> Scalars(src).Some?
    ensures ok ==> (forall i :: 0 <= i < |Scalars(src).value| ==> Representable(Scalars(src).value[i]))
                   && count == |Encode16All(Scalars(src).value)|
  {
    hide Char, Scalars, Representable, Terminated, Encode16All;
    ghost var done: seq<int> := [];
    var next := 0;
    ok, count := true, 0;
    ProgressStarts(src);
    NoUnits();
    while src[next] != 0
      invariant Progress(src, next, done) && count == |Encode16All(done)|
      decreases |src| - next
    {
      ProgressMoves(src, next, done);
      assert Terminated(src);
      var good, n, c := GetUnicodeChar(src, next);
      if !good {
        return false, 0;
      }
      if c >= 0x11_0000 {
        return false, 0;
      }
      Encode16Append(done, c);
      Units(c);
      count := count + if c >= 0x1_0000 then 2 else 1;
      next, done := n, done + [c];
    }
    ProgressEnds(src, next, done);
  }

  lemma NoUnits()
    ensures Encode16All([]) == []
  {
  }

  lemma Units(c: int)
    requires Representable(c)
    ensures 0 <= c < 0x11_0000 && |Encode16(c)| == if c >= 0x1_0000 then 2 else 1
  {
  }

  /** utf8_to_utf16: null if the string is rejected or memory runs out, else its UTF-16 form. */
  method ToUtf16(src: seq<Byte>, allocates: bool) returns (res: array?<int>)
    requires Terminated(src)
    ensures res == null <==> Scalars(src).None? || !allocates
    ensures res != null ==>
      && (forall i :: 0 <= i < |Scalars(src).value| ==> Representable(Scalars(src).value[i]))
      && res[..] == Encode16All(Scalars(src).value) + [0]
  {
    hide Char, Scalars, Representable, Terminated, Encode16All;
    var ok, count := CountUnits(src);
    if !ok || !allocates {
      return null;
    }
    ghost var all := Scalars(src).value;
    var buf := new int[count + 1];
    ghost var done: seq<int> := [];
    var next, at := 0, 0;
    ProgressStarts(src);
    NoUnits();
    while src[next] != 0
      invariant Progress(src, next, done) && at == |Encode16All(done)| <= count && buf[..at] == Encode16All(done)
      decreases |src| - next
    {
      ProgressMoves(src, next, done);
      var good, n, c := GetUnicodeChar(src, next);
      assert good && c < 0x11_0000;
      Encode16Append(done, c);
      Units(c);
      Within(src, n, done + [c]);
      ghost var was := buf[..at];
      var to := StoreUtf16(buf, at, c);
      assert buf[..to] == was + buf[at..to];
      next, at, done := n, to, done + [c];
    }
    ProgressEnds(src, next, done);
    buf[at] := 0;
    assert buf[..] == buf[..at] + [0];
    return buf;
  }

  /** The units written so far are among those counted. */
  lemma Within(src: seq<Byte>, next: nat, done: seq<int>)
    requires Progress(src, next, done) && Scalars(src).Some?
    requires forall i :: 0 <= i < |Scalars(src).value| ==> Representable(Scalars(src).value[i])
    ensures |Encode16All(done)| <= |Encode16All(Scalars(src).value)|
  {
    var all := Scalars(src).value;
    assert all[..|done|] == done;
    PrefixOfUnits(all, |done|);
  }
}
