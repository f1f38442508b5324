// Opaque edge identifiers: base64url without padding (sections 5 and 3.2 of RFC 4648) over
// from, NUL, to; and the edge listing that relies on them to tell edges apart.
module EdgeId {
  import opened Options

  type byte = b: int | 0 <= b < 256
  type sextet = v: int | 0 <= v < 64
  type Bytes = seq<byte>

  const NUL: byte := 0
  const NEWLINE: byte := 10
  const RETURN: byte := 13

  // A-Z, a-z, 0-9, '-', '_'.
  function Letter(v: sextet): byte {
    if v < 26 then 65 + v
    else if v < 52 then 97 + (v - 26)
    else if v < 62 then 48 + (v - 52)
    else if v == 62 then 45
    else 95
  }

  function Sextet(c: byte): Option<sextet> {
    if 65 <= c <= 90 then Some(c - 65)
    else if 97 <= c <= 122 then Some(c - 97 + 26)
    else if 48 <= c <= 57 then Some(c - 48 + 52)
    else if c == 45 then Some(62)
    else if c == 95 then Some(63)
    else None
  }

  // Unreserved in a URL: letters, digits, '-' and '_'.
  predicate UrlSafe(c: byte) {
    65 <= c <= 90 || 97 <= c <= 122 || 48 <= c <= 57 || c == 45 || c == 95
  }

  function High(a: int): sextet
    requires 0 <= a < 256
  {
    a / 4
  }

  function Middle(a: int, b: int): sextet
    requires 0 <= a < 256 && 0 <= b < 256
  {
    (a % 4) * 16 + b / 16
  }

  function Lower(b: int, c: int): sextet
    requires 0 <= b < 256 && 0 <= c < 256
  {
    (b % 16) * 4 + c / 64
  }

  function Low(c: int): sextet
    requires 0 <= c < 256
  {
    c % 64
  }

  // Three bytes to four digits; one or two left over give two or three.
  function Digits(bs: Bytes): seq<sextet> {
    if |bs| == 0 then []
    else if |bs| == 1 then [High(bs[0]), Middle(bs[0], 0)]
    else if |bs| == 2 then [High(bs[0]), Middle(bs[0], bs[1]), Lower(bs[1], 0)]
    else [High(bs[0]), Middle(bs[0], bs[1]), Lower(bs[1], bs[2]), Low(bs[2])] + Digits(bs[3..])
  }

  function Letters(ds: seq<sextet>): Bytes {
    if ds == [] then [] else [Letter(ds[0])] + Letters(ds[1..])
  }

  function Encode(bs: Bytes): Bytes {
    Letters(Digits(bs))
  }

  // Line breaks are skipped; any other character outside the alphabet is an error.
  function Read(cs: Bytes): Option<seq<sextet>> {
    if cs == [] then Some([])
    else
      var rest := Read(cs[1..]);
      if cs[0] == NEWLINE || cs[0] == RETURN then rest
      else if Sextet(cs[0]).None? || rest.None? then None
      else Some([Sextet(cs[0]).value] + rest.value)
  }

  function First(v: int, w: int): byte
    requires 0 <= v < 64 && 0 <= w < 64
  {
    v * 4 + w / 16
  }

  function Second(v: int, w: int): byte
    requires 0 <= v < 64 && 0 <= w < 64
  {
    (v % 16) * 16 + w / 4
  }

  function Third(v: int, w: int): byte
    requires 0 <= v < 64 && 0 <= w < 64
  {
    (v % 4) * 64 + w
  }

  // A lone digit at the end is an error; bits beyond the last whole byte are dropped.
  function Pack(ds: seq<sextet>): Option<Bytes> {
    if |ds| == 0 then Some([])
    else if |ds| == 1 then None
    else if |ds| == 2 then Some([First(ds[0], ds[1])])
    else if |ds| == 3 then Some([First(ds[0], ds[1]), Second(ds[1], ds[2])])
    else
      var rest := Pack(ds[4..]);
      if rest.None? then None
      else Some([First(ds[0], ds[1]), Second(ds[1], ds[2]), Third(ds[2], ds[3])] + rest.value)
  }

  function Decode(cs: Bytes): Option<Bytes> {
    match Read(cs)
    case None => None
    case Some(ds) => Pack(ds)
  }

  function EncodeEdgeID(from: Bytes, to: Bytes): Bytes {
    Encode(from + [NUL] + to)
  }

  // The first index of a byte.
  function IndexByte(bs: Bytes, b: byte): Option<nat> {
    if bs == [] then None
    else if bs[0] == b then Some(0)
    else match IndexByte(bs[1..], b)
      case None => None
      case Some(i) => Some(i + 1)
  }

  function DecodeEdgeID(id: Bytes): Option<(Bytes, Bytes)> {
    match Decode(id)
    case None => None
    case Some(raw) => SplitAtNul(raw)
  }

  function SplitAtNul(raw: Bytes): Option<(Bytes, Bytes)> {
    match IndexByte(raw, NUL)
    case None => None
    case Some(i) => if i < |raw| then Some((raw[..i], raw[i + 1..])) else None
  }

  // ---------- the codec ----------

  lemma SextetLetter(v: sextet)
    ensures Sextet(Letter(v)) == Some(v) && Letter(v) != NEWLINE && Letter(v) != RETURN
  {}

  // The URL-safe alphabet, Table 2 of RFC 4648: A to Z, a to z, 0 to 9, minus, underscore.
  lemma LetterIs(v: sextet)
    ensures Letter(v) ==
      if v < 26 then 'A' as int + v
      else if v < 52 then 'a' as int + (v - 26)
      else if v < 62 then '0' as int + (v - 52)
      else if v == 62 then '-' as int else '_' as int
  {}

  // A character stands for a digit exactly when it is in the alphabet, and then for its place there.
  lemma SextetIs(c: byte)
    ensures Sextet(c).Some? <==> UrlSafe(c)
    ensures Sextet(c).Some? ==> Letter(Sextet(c).value) == c
  {}

  // The n low bits of a number, most significant first.
  function Bits(x: nat, n: nat): seq<int> {
    if n == 0 then [] else Bits(x / 2, n - 1) + [x % 2]
  }

  function BitsOfBytes(bs: Bytes): seq<int> {
    if bs == [] then [] else Bits(bs[0], 8) + BitsOfBytes(bs[1..])
  }

  function BitsOfDigits(ds: seq<sextet>): seq<int> {
    if ds == [] then [] else Bits(ds[0], 6) + BitsOfDigits(ds[1..])
  }

  lemma SplitOne(x: nat, n: nat)
    ensures Bits(x, n + 1) == Bits(x / 2, n) + [x % 2]
  {}

  lemma SplitTwo(x: nat, n: nat)
    ensures Bits(x, n + 2) == Bits(x / 4, n) + Bits(x % 4, 2)
  {
    SplitOne(x, n + 1);
    SplitOne(x / 2, n);
    SplitOne(x % 4, 1);
    SplitOne(x % 4 / 2, 0);
    assert Bits(x % 4 / 2 / 2, 0) == [];
    hide Bits;
    assert x / 2 / 2 == x / 4 && x % 4 / 2 % 2 == x / 2 % 2 && x % 4 % 2 == x % 2;
  }

  lemma SplitFour(x: nat, n: nat)
    ensures Bits(x, n + 4) == Bits(x / 16, n) + Bits(x % 16, 4)
  {
    hide Bits;
    SplitTwo(x, n + 2);
    SplitTwo(x / 4, n);
    SplitTwo(x % 16, 2);
    assert x / 4 / 4 == x / 16 && x % 16 / 4 == x / 4 % 4 && x % 16 % 4 == x % 4;
  }

  lemma SplitSix(x: nat, n: nat)
    ensures Bits(x, n + 6) == Bits(x / 64, n) + Bits(x % 64, 6)
  {
    hide Bits;
    SplitTwo(x, n + 4);
    SplitFour(x / 4, n);
    SplitTwo(x % 64, 4);
    assert x / 4 / 16 == x / 64 && x % 64 / 4 == x / 4 % 16 && x % 64 % 4 == x % 4;
  }

  lemma MiddleBits(a: byte, b: byte)
    ensures Bits(Middle(a, b), 6) == Bits(a % 4, 2) + Bits(b / 16, 4)
  {
    SplitFour(Middle(a, b), 2);
    assert Middle(a, b) / 16 == a % 4 && Middle(a, b) % 16 == b / 16;
    hide Bits, Middle;
  }

  lemma LowerBits(b: byte, c: byte)
    ensures Bits(Lower(b, c), 6) == Bits(b % 16, 4) + Bits(c / 64, 2)
  {
    SplitTwo(Lower(b, c), 4);
    assert Lower(b, c) / 4 == b % 16 && Lower(b, c) % 4 == c / 64;
    hide Bits, Lower;
  }

  lemma Regroup(u: seq<int>, v: seq<int>, w: seq<int>, x: seq<int>, y: seq<int>, z: seq<int>)
    ensures u + (v + w) == u + v + w
    ensures u + (v + w) + (x + y) == u + v + (w + x) + y
    ensures u + (v + w) + (x + y) + z == u + v + (w + x) + (y + z)
  {}

  // Four digits spell the bits of three bytes; fewer end in zero bits.
  lemma GroupBits(a: byte, b: byte, c: byte)
    ensures Bits(High(a), 6) + Bits(Middle(a, b), 6) + Bits(Lower(b, c), 6) + Bits(Low(c), 6)
         == Bits(a, 8) + Bits(b, 8) + Bits(c, 8)
    ensures Bits(High(a), 6) + Bits(Middle(a, 0), 6) == Bits(a, 8) + Bits(0, 4)
    ensures Bits(High(a), 6) + Bits(Middle(a, b), 6) + Bits(Lower(b, 0), 6) == Bits(a, 8) + Bits(b, 8) + Bits(0, 2)
  {
    hide Bits;
    SplitTwo(a, 6);
    SplitFour(b, 4);
    SplitSix(c, 2);
    MiddleBits(a, b);
    MiddleBits(a, 0);
    LowerBits(b, c);
    LowerBits(b, 0);
    assert 0 / 16 == 0 && 0 / 64 == 0;
    Regroup(Bits(a / 4, 6), Bits(a % 4, 2), Bits(b / 16, 4), Bits(b % 16, 4), Bits(c / 64, 2), Bits(c % 64, 6));
    Regroup(Bits(a / 4, 6), Bits(a % 4, 2), Bits(0, 4), [], [], []);
    Regroup(Bits(a / 4, 6), Bits(a % 4, 2), Bits(b / 16, 4), Bits(b % 16, 4), Bits(0, 2), []);
    assert High(a) == a / 4 && Low(c) == c % 64;
    hide Middle, Lower, High, Low;
  }

  lemma ZeroBits()
    ensures Bits(0, 2) == [0, 0] && Bits(0, 4) == [0, 0, 0, 0]
  {
    SplitTwo(0, 0);
    SplitTwo(0, 2);
    assert Bits(0, 1) == [0] && Bits(0, 2) == [0, 0];
  }

  // What fills the last digit.
  function Pad(n: nat): seq<int> {
    if n % 3 == 0 then [] else if n % 3 == 1 then [0, 0, 0, 0] else [0, 0]
  }

  // The digits spell the bits of the bytes in order, six at a time, with zero bits to fill the last digit
  // (section 4 of RFC 4648).
  lemma {:induction false} DigitsSpellBits(bs: Bytes)
    ensures BitsOfDigits(Digits(bs)) == BitsOfBytes(bs) + Pad(|bs|)
  {
    hide Digits, BitsOfDigits, BitsOfBytes, Bits, Pad;
    if |bs| == 0 {
      NoBits();
    } else if |bs| == 1 {
      SpellsOne(bs[0]);
      assert bs == [bs[0]];
    } else if |bs| == 2 {
      SpellsTwo(bs[0], bs[1]);
      assert bs == [bs[0], bs[1]];
    } else {
      DigitsSpellBits(bs[3..]);
      SpellsThree(bs);
      PadSame(|bs[3..]|);
      Reassoc(Bits(bs[0], 8) + Bits(bs[1], 8) + Bits(bs[2], 8), BitsOfBytes(bs[3..]), Pad(|bs|), []);
    }
  }

  lemma PadSame(n: nat)
    ensures Pad(n + 3) == Pad(n)
  {}

  lemma DigitCons(d: sextet, rest: seq<sextet>)
    ensures BitsOfDigits([d] + rest) == Bits(d, 6) + BitsOfDigits(rest)
  {
    assert ([d] + rest)[1..] == rest;
  }

  lemma ByteCons(b: byte, rest: Bytes)
    ensures BitsOfBytes([b] + rest) == Bits(b, 8) + BitsOfBytes(rest)
  {
    assert ([b] + rest)[1..] == rest;
  }

  lemma NoBits()
    ensures Digits([]) == [] && BitsOfDigits([]) == [] && BitsOfBytes([]) == [] && Pad(0) == []
  {}

  lemma Reassoc(u: seq<int>, v: seq<int>, w: seq<int>, x: seq<int>)
    ensures u + (v + w) == u + v + w && u + (v + (w + x)) == u + v + w + x && u + [] == u
  {}

  lemma SpellsOne(b: byte)
    ensures BitsOfDigits(Digits([b])) == BitsOfBytes([b]) + Pad(1)
  {
    var d, e := High(b), Middle(b, 0);
    assert Digits([b]) == [d] + ([e] + []) && [b] == [b] + [];
    GroupBits(b, 0, 0);
    ZeroBits();
    NoBits();
    DigitCons(e, []);
    DigitCons(d, [e] + []);
    ByteCons(b, []);
    hide Bits, High, Middle, BitsOfDigits, BitsOfBytes, Digits;
    Reassoc(Bits(d, 6), Bits(e, 6), [], []);
    Reassoc(Bits(e, 6), [], [], []);
    Reassoc(Bits(b, 8), [], [], []);
  }

  lemma SpellsTwo(b: byte, c: byte)
    ensures BitsOfDigits(Digits([b, c])) == BitsOfBytes([b, c]) + Pad(2)
  {
    var d, e, f := High(b), Middle(b, c), Lower(c, 0);
    assert Digits([b, c]) == [d] + ([e] + ([f] + [])) && [b, c] == [b] + ([c] + []);
    GroupBits(b, c, 0);
    ZeroBits();
    NoBits();
    DigitCons(f, []);
    DigitCons(e, [f] + []);
    DigitCons(d, [e] + ([f] + []));
    ByteCons(c, []);
    ByteCons(b, [c] + []);
    hide Bits, High, Middle, Lower, BitsOfDigits, BitsOfBytes, Digits;
    Reassoc(Bits(f, 6), [], [], []);
    Reassoc(Bits(d, 6), Bits(e, 6), Bits(f, 6), []);
    Reassoc(Bits(c, 8), [], [], []);
  }

  lemma ReassocFour(u: seq<int>, v: seq<int>, w: seq<int>, x: seq<int>, r: seq<int>)
    ensures u + (v + (w + (x + r))) == u + v + w + x + r
  {}

  lemma SpellsThree(bs: Bytes)
    requires |bs| >= 3
    ensures BitsOfDigits(Digits(bs)) ==
      Bits(bs[0], 8) + Bits(bs[1], 8) + Bits(bs[2], 8) + BitsOfDigits(Digits(bs[3..]))
    ensures BitsOfBytes(bs) == Bits(bs[0], 8) + Bits(bs[1], 8) + Bits(bs[2], 8) + BitsOfBytes(bs[3..])
  {
    hide Bits, High, Middle, Lower, Low, BitsOfDigits, BitsOfBytes, Digits;
    var a, b, c := bs[0], bs[1], bs[2];
    ThreeBytes(bs);
    DigitsOfThree(bs);
    GroupBits(a, b, c);
    FourSpell(High(a), Middle(a, b), Lower(b, c), Low(c), Digits(bs[3..]));
    ThreeSpell(a, b, c, bs[3..]);
  }

  lemma ThreeBytes(bs: Bytes)
    requires |bs| >= 3
    ensures bs == [bs[0]] + ([bs[1]] + ([bs[2]] + bs[3..]))
  {}

  lemma DigitsOfThree(bs: Bytes)
    requires |bs| >= 3
    ensures Digits(bs) ==
      [High(bs[0])] + ([Middle(bs[0], bs[1])] + ([Lower(bs[1], bs[2])] + ([Low(bs[2])] + Digits(bs[3..]))))
  {
    var d, e, f, g := High(bs[0]), Middle(bs[0], bs[1]), Lower(bs[1], bs[2]), Low(bs[2]);
    assert Digits(bs) == [d, e, f, g] + Digits(bs[3..]);
    hide High, Middle, Lower, Low, Digits;
    OneByOne(d, e, f, g, Digits(bs[3..]));
  }

  lemma OneByOne(d: sextet, e: sextet, f: sextet, g: sextet, rest: seq<sextet>)
    ensures [d, e, f, g] + rest == [d] + ([e] + ([f] + ([g] + rest)))
  {}

  lemma FourSpell(d: sextet, e: sextet, f: sextet, g: sextet, rest: seq<sextet>)
    ensures BitsOfDigits([d] + ([e] + ([f] + ([g] + rest)))) ==
      Bits(d, 6) + Bits(e, 6) + Bits(f, 6) + Bits(g, 6) + BitsOfDigits(rest)
  {
    hide Bits, BitsOfDigits;
    DigitCons(g, rest);
    DigitCons(f, [g] + rest);
    DigitCons(e, [f] + ([g] + rest));
    DigitCons(d, [e] + ([f] + ([g] + rest)));
    ReassocFour(Bits(d, 6), Bits(e, 6), Bits(f, 6), Bits(g, 6), BitsOfDigits(rest));
  }

  lemma ThreeSpell(a: byte, b: byte, c: byte, rest: Bytes)
    ensures BitsOfBytes([a] + ([b] + ([c] + rest))) == Bits(a, 8) + Bits(b, 8) + Bits(c, 8) + BitsOfBytes(rest)
  {
    hide Bits, BitsOfBytes;
    ByteCons(c, rest);
    ByteCons(b, [c] + rest);
    ByteCons(a, [b] + ([c] + rest));
    Reassoc(Bits(a, 8), Bits(b, 8), Bits(c, 8), BitsOfBytes(rest));
  }

  lemma {:induction false} ReadLetters(ds: seq<sextet>)
    ensures Read(Letters(ds)) == Some(ds)
  {
    if ds != [] {
      ReadLetters(ds[1..]);
      SextetLetter(ds[0]);
      assert ds == [ds[0]] + ds[1..];
      assert Letters(ds)[1..] == Letters(ds[1..]);
    }
  }

  lemma GroupBytes(a: int, b: int, c: int)
    requires 0 <= a < 256 && 0 <= b < 256 && 0 <= c < 256
    ensures First(High(a), Middle(a, b)) == a
    ensures Second(Middle(a, b), Lower(b, c)) == b
    ensures Third(Lower(b, c), Low(c)) == c
  {}

  lemma PackPair(d: sextet, e: sextet)
    ensures Pack([d, e]) == Some([First(d, e)])
  {}

  lemma PackOne(a: byte, b: byte)
    ensures Pack([High(a), Middle(a, b)]) == Some([a])
  {
    GroupBytes(a, b, 0);
    PackPair(High(a), Middle(a, b));
  }

  lemma PackTwo(a: byte, b: byte)
    ensures Pack([High(a), Middle(a, b), Lower(b, 0)]) == Some([a, b])
  {
    GroupBytes(a, b, 0);
  }

  lemma PackThree(a: byte, b: byte, c: byte, rest: seq<sextet>)
    requires Pack(rest).Some?
    ensures Pack([High(a), Middle(a, b), Lower(b, c), Low(c)] + rest) == Some([a, b, c] + Pack(rest).value)
  {
    PackGroup(High(a), Middle(a, b), Lower(b, c), Low(c), rest);
    GroupBytes(a, b, c);
  }

  lemma PackGroup(d: sextet, e: sextet, f: sextet, g: sextet, rest: seq<sextet>)
    requires Pack(rest).Some?
    ensures Pack([d, e, f, g] + rest) == Some([First(d, e), Second(e, f), Third(f, g)] + Pack(rest).value)
  {
    assert ([d, e, f, g] + rest)[4..] == rest;
  }

  lemma {:induction false} PackDigits(bs: Bytes)
    ensures Pack(Digits(bs)) == Some(bs)
  {
    if |bs| == 1 {
      PackOne(bs[0], 0);
      assert bs == [bs[0]];
    } else if |bs| == 2 {
      PackTwo(bs[0], bs[1]);
      assert bs == [bs[0], bs[1]];
    } else if |bs| >= 3 {
      PackDigits(bs[3..]);
      PackThree(bs[0], bs[1], bs[2], Digits(bs[3..]));
      assert bs == [bs[0], bs[1], bs[2]] + bs[3..];
    }
  }

  lemma DecodeEncode(bs: Bytes)
    ensures Decode(Encode(bs)) == Some(bs)
  {
    ReadLetters(Digits(bs));
    PackDigits(bs);
  }

  lemma {:induction false} LettersUrlSafe(ds: seq<sextet>)
    ensures |Letters(ds)| == |ds|
    ensures forall i :: 0 <= i < |ds| ==> Letters(ds)[i] == Letter(ds[i]) && UrlSafe(Letters(ds)[i])
  {
    if ds != [] {
      LettersUrlSafe(ds[1..]);
    }
  }

  // An encoding is one alphabet character for every six bits.
  lemma EncodingIs(bs: Bytes)
    ensures var ds := Digits(bs);
      && BitsOfDigits(ds) == BitsOfBytes(bs) + Pad(|bs|)
      && |Encode(bs)| == |ds| && forall i :: 0 <= i < |ds| ==> Encode(bs)[i] == Letter(ds[i])
  {
    DigitsSpellBits(bs);
    LettersUrlSafe(Digits(bs));
  }

  // What is left of a string without its line breaks.
  function Kept(cs: Bytes): Bytes {
    if cs == [] then []
    else (if cs[0] == NEWLINE || cs[0] == RETURN then [] else [cs[0]]) + Kept(cs[1..])
  }

  lemma {:induction false} ReadIff(cs: Bytes)
    ensures Read(cs).Some? <==> forall i :: 0 <= i < |Kept(cs)| ==> UrlSafe(Kept(cs)[i])
    ensures Read(cs).Some? ==> |Read(cs).value| == |Kept(cs)|
  {
    if cs != [] {
      ReadIff(cs[1..]);
      SextetIs(cs[0]);
      var first := if cs[0] == NEWLINE || cs[0] == RETURN then [] else [cs[0]];
      assert Kept(cs) == first + Kept(cs[1..]);
      if Read(cs).Some? && first != [] {
        forall i | 0 <= i < |Kept(cs)|
          ensures UrlSafe(Kept(cs)[i])
        {
          assert i > 0 ==> Kept(cs)[i] == Kept(cs[1..])[i - 1];
        }
      }
      if forall i :: 0 <= i < |Kept(cs)| ==> UrlSafe(Kept(cs)[i]) {
        forall i | 0 <= i < |Kept(cs[1..])|
          ensures UrlSafe(Kept(cs[1..])[i])
        {
          assert Kept(cs[1..])[i] == Kept(cs)[i + |first|];
        }
        assert first != [] ==> Kept(cs)[0] == cs[0];
      }
    }
  }

  lemma {:induction false} PackIff(ds: seq<sextet>)
    ensures Pack(ds).Some? <==> |ds| % 4 != 1
  {
    hide First, Second, Third;
    if |ds| >= 4 {
      PackIff(ds[4..]);
      assert |ds[4..]| == |ds| - 4;
    }
  }

  // A string decodes if and only if, line breaks aside, it has only characters of the alphabet and does not leave a
  // single one after the groups of four; and it is an identifier if and only if it decodes to something with a NUL.
  lemma DecodableIff(cs: Bytes)
    ensures Decode(cs).Some? <==>
      (forall i :: 0 <= i < |Kept(cs)| ==> UrlSafe(Kept(cs)[i])) && |Kept(cs)| % 4 != 1
    ensures DecodeEdgeID(cs).Some? <==> Decode(cs).Some? && NUL in Decode(cs).value
    ensures DecodeEdgeID(cs).Some? ==> var (from, to) := DecodeEdgeID(cs).value;
      Decode(cs).value == from + [NUL] + to && NUL !in from
  {
    ReadIff(cs);
    if Read(cs).Some? {
      PackIff(Read(cs).value);
    }
    if Decode(cs).Some? {
      IndexIsFirst(Decode(cs).value, NUL);
    }
  }

  lemma {:induction false} IndexIsFirst(bs: Bytes, b: byte)
    ensures match IndexByte(bs, b)
      case None => b !in bs
      case Some(i) => i < |bs| && bs[i] == b && b !in bs[..i]
  {
    if bs != [] && bs[0] != b {
      IndexIsFirst(bs[1..], b);
      match IndexByte(bs[1..], b)
      case None =>
      case Some(i) => assert bs[..i + 1] == [bs[0]] + bs[1..][..i];
    }
  }

  // An identifier decodes to the pair it was made from if and only if the source has no NUL; it is never
  // malformed, and always URL-safe.
  lemma RoundTripIff(from: Bytes, to: Bytes)
    ensures DecodeEdgeID(EncodeEdgeID(from, to)).Some?
    ensures DecodeEdgeID(EncodeEdgeID(from, to)) == Some((from, to)) <==> NUL !in from
    ensures forall i :: 0 <= i < |EncodeEdgeID(from, to)| ==> UrlSafe(EncodeEdgeID(from, to)[i])
  {
    var raw := from + [NUL] + to;
    DecodeEncode(raw);
    LettersUrlSafe(Digits(raw));
    IndexIsFirst(raw, NUL);
    assert raw[|from|] == NUL;
    var i := IndexByte(raw, NUL).value;
    if NUL !in from {
      assert forall j :: 0 <= j < |from| ==> raw[j] == from[j] != NUL;
      assert forall j :: 0 <= j < i ==> raw[j] == raw[..i][j] != NUL;
      assert i == |from|;
      assert raw[..|from|] == from && raw[|from| + 1..] == to;
    }
  }

  // Two pairs share an identifier if and only if they spell the same bytes, so never when the sources have
  // no NUL.
  lemma SameIdIff(from: Bytes, to: Bytes, from': Bytes, to': Bytes)
    ensures EncodeEdgeID(from, to) == EncodeEdgeID(from', to') <==> from + [NUL] + to == from' + [NUL] + to'
    ensures NUL !in from && NUL !in from' && EncodeEdgeID(from, to) == EncodeEdgeID(from', to') ==>
      from == from' && to == to'
  {
    DecodeEncode(from + [NUL] + to);
    DecodeEncode(from' + [NUL] + to');
    RoundTripIff(from, to);
    RoundTripIff(from', to');
  }

  lemma {:induction false} ReadSkips(a: Bytes, c: byte, b: Bytes)
    requires c == NEWLINE || c == RETURN
    ensures Read(a + [c] + b) == Read(a + b)
    decreases |a|
  {
    if a == [] {
      assert a + [c] + b == [c] + b && ([c] + b)[1..] == b && a + b == b;
    } else {
      ReadSkips(a[1..], c, b);
      assert (a + [c] + b)[1..] == a[1..] + [c] + b && (a + b)[1..] == a[1..] + b;
    }
  }

  // The converse fails: a line break anywhere in an identifier gives another string for the same edge.
  lemma BreaksAreIgnored(from: Bytes, to: Bytes, k: nat)
    requires NUL !in from && k <= |EncodeEdgeID(from, to)|
    ensures var id := EncodeEdgeID(from, to);
      DecodeEdgeID(id[..k] + [NEWLINE] + id[k..]) == Some((from, to)) && id[..k] + [NEWLINE] + id[k..] != id
  {
    var id := EncodeEdgeID(from, to);
    ReadSkips(id[..k], NEWLINE, id[k..]);
    assert id[..k] + id[k..] == id;
    RoundTripIff(from, to);
  }

  // ---------- listing edges ----------

  datatype GraphEdge = GraphEdge(source: Bytes, target: Bytes, typ: Bytes, properties: map<Bytes, Bytes>)

  datatype Edge = Edge(id: Bytes, from: Bytes, to: Bytes, relation: Bytes, properties: map<Bytes, Bytes>)

  // What a Graph call answers for one label: its edges, a 404, or any other error.
  datatype GraphAnswer = Edges(edges: seq<GraphEdge>) | NoSuchLabel | GraphError

  // "keywords".
  const KEYWORDS: Bytes := [107, 101, 121, 119, 111, 114, 100, 115]

  lemma KeywordsIs()
    ensures |KEYWORDS| == 8 && forall i :: 0 <= i < 8 ==> KEYWORDS[i] == "keywords"[i] as int
  {}

  function FromGraphEdge(e: GraphEdge): Edge {
    var relation := if KEYWORDS in e.properties && e.properties[KEYWORDS] != [] then e.properties[KEYWORDS] else e.typ;
    Edge(EncodeEdgeID(e.source, e.target), e.source, e.target, relation, e.properties)
  }

  function Key(e: Edge): Bytes {
    e.id + [NUL] + e.relation
  }

  function Triple(e: Edge): (Bytes, Bytes, Bytes) {
    (e.from, e.to, e.relation)
  }

  // An edge as the conversion makes it.
  ghost predicate Converted(e: Edge) {
    e.id == EncodeEdgeID(e.from, e.to)
  }

  predicate LookAlike(a: Edge, b: Edge) {
    a.relation == b.relation && a.from + [NUL] + a.to == b.from + [NUL] + b.to
  }

  // The deduplication key merges two edges if and only if they have one relation and their endpoints spell
  // the same bytes.
  lemma KeyIff(a: Edge, b: Edge)
    requires Converted(a) && Converted(b)
    ensures Key(a) == Key(b) <==> LookAlike(a, b)
  {
    RoundTripIff(a.from, a.to);
    RoundTripIff(b.from, b.to);
    SameIdIff(a.from, a.to, b.from, b.to);
    SafeHasNoNul(a.id);
    SafeHasNoNul(b.id);
    if Key(a) == Key(b) {
      UntilNul(a.id, a.relation, b.id, b.relation);
    }
  }

  lemma SafeHasNoNul(cs: Bytes)
    requires forall i :: 0 <= i < |cs| ==> UrlSafe(cs[i])
    ensures NUL !in cs
  {
    assert !UrlSafe(NUL);
  }

  lemma UntilNul(a: Bytes, r: Bytes, b: Bytes, t: Bytes)
    requires NUL !in a && NUL !in b && a + [NUL] + r == b + [NUL] + t
    ensures a == b && r == t
  {
    var s := a + [NUL] + r;
    assert s == b + [NUL] + t;
    assert forall i :: 0 <= i < |a| ==> s[i] == a[i] != NUL;
    assert forall i :: 0 <= i < |b| ==> s[i] == b[i] != NUL;
    assert s[|a|] == NUL && s[|b|] == NUL;
    assert |a| == |b|;
    assert s[..|a|] == a && s[..|b|] == b && s[|a| + 1..] == r && s[|b| + 1..] == t;
  }

  function Triples(es: seq<Edge>): set<(Bytes, Bytes, Bytes)> {
    set e | e in es :: Triple(e)
  }

  function Keys(es: seq<Edge>): set<Bytes> {
    set e | e in es :: Key(e)
  }

  // Every edge the upstream returns for these labels, converted, in order.
  function Returned(labels: seq<Bytes>, graph: Bytes -> GraphAnswer): seq<Edge> {
    if labels == [] then []
    else Returned(labels[..|labels| - 1], graph) + EdgesOf(graph(labels[|labels| - 1]))
  }

  function EdgesOf(a: GraphAnswer): seq<Edge> {
    if a.Edges? then seq(|a.edges|, i requires 0 <= i < |a.edges| => FromGraphEdge(a.edges[i])) else []
  }

  // Only returned edges, no key twice, and every key there.
  ghost predicate ListsKeys(all: seq<Edge>, out: seq<Edge>) {
    && (forall e :: e in out ==> e in all)
    && (forall i, j :: 0 <= i < j < |out| ==> Key(out[i]) != Key(out[j]))
    && Keys(out) == Keys(all)
  }

  // Only returned edges, no (from, to, relation) twice, and every one there.
  ghost predicate ListsTriples(all: seq<Edge>, out: seq<Edge>) {
    && (forall e :: e in out ==> e in all)
    && (forall i, j :: 0 <= i < j < |out| ==> Triple(out[i]) != Triple(out[j]))
    && Triples(out) == Triples(all)
  }

  // No two of these edges have one relation and distinct endpoints that spell the same bytes.
  ghost predicate NoLookAlikes(all: seq<Edge>) {
    forall a, b :: a in all && b in all && LookAlike(a, b) ==> Triple(a) == Triple(b)
  }

  lemma KeysMore(all: seq<Edge>, e: Edge)
    ensures Keys(all + [e]) == Keys(all) + {Key(e)}
  {
    assert (all + [e])[|all|] == e;
  }

  lemma ListsMore(all: seq<Edge>, out: seq<Edge>, e: Edge)
    requires ListsKeys(all, out)
    ensures Key(e) in Keys(all) ==> ListsKeys(all + [e], out)
    ensures Key(e) !in Keys(all) ==> ListsKeys(all + [e], out + [e])
  {
    KeysMore(all, e);
    KeysMore(out, e);
    if Key(e) !in Keys(all) {
      forall i | 0 <= i < |out|
        ensures Key(out[i]) != Key(e)
      {
        assert Key(out[i]) in Keys(out);
      }
    }
  }

  lemma {:induction false} ReturnedConverted(labels: seq<Bytes>, graph: Bytes -> GraphAnswer, e: Edge)
    requires e in Returned(labels, graph)
    ensures Converted(e)
  {
    if labels != [] && e in Returned(labels[..|labels| - 1], graph) {
      ReturnedConverted(labels[..|labels| - 1], graph, e);
    }
  }

  // What the calls return: every edge of every label's answer, with its endpoints and properties, related by its
  // "keywords" if it has any and by its type otherwise.
  lemma {:induction false} ReturnedIff(labels: seq<Bytes>, graph: Bytes -> GraphAnswer, e: Edge)
    ensures e in Returned(labels, graph) <==>
      exists l, g :: l in labels && graph(l).Edges? && g in graph(l).edges && IsEdgeOf(e, g)
  {
    if labels != [] {
      var init, l := labels[..|labels| - 1], labels[|labels| - 1];
      ReturnedIff(init, graph, e);
      assert labels == init + [l];
      EdgesOfIff(graph(l), e);
    }
  }

  ghost predicate IsEdgeOf(e: Edge, g: GraphEdge) {
    && e.from == g.source && e.to == g.target && e.properties == g.properties
    && e.id == EncodeEdgeID(g.source, g.target)
    && (KEYWORDS in g.properties && g.properties[KEYWORDS] != [] ==> e.relation == g.properties[KEYWORDS])
    && (KEYWORDS !in g.properties || g.properties[KEYWORDS] == [] ==> e.relation == g.typ)
  }

  lemma EdgesOfIff(a: GraphAnswer, e: Edge)
    ensures e in EdgesOf(a) <==> a.Edges? && exists g :: g in a.edges && IsEdgeOf(e, g)
  {
    if a.Edges? {
      forall g
        ensures IsEdgeOf(e, g) <==> e == FromGraphEdge(g)
      {}
      if g :| g in a.edges && IsEdgeOf(e, g) {
        var i :| 0 <= i < |a.edges| && a.edges[i] == g;
        assert EdgesOf(a)[i] == e;
      }
    }
  }

  // A listing holds every edge the calls return exactly once, told apart by from, to and relation, if and only if no
  // two of them look alike; none do when no source has a NUL.
  lemma ListedOnceIff(labels: seq<Bytes>, graph: Bytes -> GraphAnswer, out: seq<Edge>)
    requires ListsKeys(Returned(labels, graph), out)
    ensures ListsTriples(Returned(labels, graph), out) <==> NoLookAlikes(Returned(labels, graph))
    ensures (forall e :: e in Returned(labels, graph) ==> NUL !in e.from) ==> NoLookAlikes(Returned(labels, graph))
  {
    var all := Returned(labels, graph);
    forall a, b | a in all && b in all
      ensures Key(a) == Key(b) <==> LookAlike(a, b)
      ensures NUL !in a.from && NUL !in b.from && Key(a) == Key(b) ==> Triple(a) == Triple(b)
      ensures Triple(a) == Triple(b) ==> Key(a) == Key(b)
    {
      ReturnedConverted(labels, graph, a);
      ReturnedConverted(labels, graph, b);
      KeyIff(a, b);
      SameIdIff(a.from, a.to, b.from, b.to);
    }
    ListedIff(all, out);
  }

  lemma ListedIff(all: seq<Edge>, out: seq<Edge>)
    requires ListsKeys(all, out)
    requires forall a, b :: a in all && b in all ==> (Key(a) == Key(b) <==> LookAlike(a, b))
    requires forall a, b :: a in all && b in all && Triple(a) == Triple(b) ==> Key(a) == Key(b)
    ensures ListsTriples(all, out) <==> NoLookAlikes(all)
  {
    hide LookAlike, Triple, Key;
    if NoLookAlikes(all) {
      KeptTriples(all, out);
    }
    if ListsTriples(all, out) {
      forall a, b | a in all && b in all && LookAlike(a, b)
        ensures Triple(a) == Triple(b)
      {
        var i := Keeps(all, out, a);
        var j := Keeps(all, out, b);
        assert out[i] in all && out[j] in all;
        assert Key(out[i]) == Key(a) && Key(out[j]) == Key(b);
      }
    }
  }

  // Where triples survive, the edge kept for a key has the triple of every edge with that key.
  lemma Keeps(all: seq<Edge>, out: seq<Edge>, a: Edge) returns (i: nat)
    requires ListsTriples(all, out) && a in all
    ensures i < |out| && Triple(out[i]) == Triple(a)
  {
    assert Triple(a) in Triples(all);
    var e :| e in out && Triple(e) == Triple(a);
    i :| 0 <= i < |out| && out[i] == e;
  }

  lemma KeptTriples(all: seq<Edge>, out: seq<Edge>)
    requires ListsKeys(all, out)
    requires forall a, b :: a in all && b in all && Key(a) == Key(b) ==> Triple(a) == Triple(b)
    requires forall a, b :: a in all && b in all && Triple(a) == Triple(b) ==> Key(a) == Key(b)
    ensures ListsTriples(all, out)
  {
    forall a | a in all
      ensures Triple(a) in Triples(out)
    {
      assert Key(a) in Keys(all);
      var e :| e in out && Key(e) == Key(a);
    }
    assert forall i :: 0 <= i < |out| ==> out[i] in all;
  }

  ghost predicate NoErrors(labels: seq<Bytes>, graph: Bytes -> GraphAnswer) {
    forall j :: 0 <= j < |labels| ==> !graph(labels[j]).GraphError?
  }

  lemma NoErrorsMore(ls: seq<Bytes>, graph: Bytes -> GraphAnswer, i: nat)
    requires i < |ls|
    ensures NoErrors(ls[..i + 1], graph) <==> NoErrors(ls[..i], graph) && !graph(ls[i]).GraphError?
    ensures graph(ls[i]).GraphError? ==> !NoErrors(ls, graph)
  {
    assert forall j :: 0 <= j < i ==> ls[..i][j] == ls[j] == ls[..i + 1][j];
    assert ls[..i + 1][i] == ls[i];
  }

  lemma ReturnedMore(ls: seq<Bytes>, graph: Bytes -> GraphAnswer, i: nat)
    requires i < |ls|
    ensures Returned(ls[..i + 1], graph) == Returned(ls[..i], graph) + EdgesOf(graph(ls[i]))
  {
    assert ls[..i + 1][..i] == ls[..i];
  }

  lemma NoEdges(a: GraphAnswer)
    requires !a.Edges?
    ensures EdgesOf(a) == []
  {}

  // One Graph call per label; a 404 label is skipped and any other error ends the listing.
  method ListEdges(labels: Option<seq<Bytes>>, graph: Bytes -> GraphAnswer) returns (out: Option<seq<Edge>>)
    ensures out.Some? <==> labels.Some? && NoErrors(labels.value, graph)
    ensures out.Some? ==> ListsKeys(Returned(labels.value, graph), out.value)
  {
    if labels.None? {
      return None;
    }
    var ls := labels.value;
    var seen: set<Bytes>, list: seq<Edge> := {}, [];
    ghost var all: seq<Edge> := [];
    assert ListsKeys(all, list) && seen == Keys(all);
    assert all == Returned(ls[..0], graph) && NoErrors(ls[..0], graph);
    hide ListsKeys, Keys, EdgesOf, Returned, NoErrors;
    for i := 0 to |ls|
      invariant NoErrors(ls[..i], graph)
      invariant all == Returned(ls[..i], graph)
      invariant ListsKeys(all, list) && seen == Keys(all)
    {
      ReturnedMore(ls, graph, i);
      NoErrorsMore(ls, graph, i);
      var answer := graph(ls[i]);
      if answer.GraphError? {
        return None;
      }
      if answer.NoSuchLabel? {
        NoEdges(answer);
        continue;
      }
      list, seen, all := Collect(answer, list, seen, all);
    }
    assert ls[..|ls|] == ls;
    out := Some(list);
  }

  // The inner loop over one label's edges.
  method Collect(answer: GraphAnswer, list: seq<Edge>, keys: set<Bytes>, ghost before: seq<Edge>)
    returns (out: seq<Edge>, seen: set<Bytes>, ghost all: seq<Edge>)
    requires answer.Edges?
    requires ListsKeys(before, list) && keys == Keys(before)
    ensures all == before + EdgesOf(answer)
    ensures ListsKeys(all, out) && seen == Keys(all)
  {
    hide Keys, ListsKeys;
    out, seen, all := list, keys, before;
    var edges := answer.edges;
    ghost var more := EdgesOf(answer);
    for j := 0 to |edges|
      invariant all == before + more[..j]
      invariant ListsKeys(all, out) && seen == Keys(all)
    {
      var edge := FromGraphEdge(edges[j]);
      assert more[..j + 1] == more[..j] + [edge];
      KeysMore(all, edge);
      ListsMore(all, out, edge);
      if Key(edge) !in seen {
        seen := seen + {Key(edge)};
        out := out + [edge];
      }
      all := all + [edge];
    }
    assert more[..|edges|] == more;
  }
}
