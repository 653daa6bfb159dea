/**
 * UTF-8 (RFC 3629) over Dafny strings, whose characters are Unicode scalar
 * values: `str.encode("utf-8")`, `bytes.decode("utf-8", errors="ignore")`,
 * and the prefix that survives cutting an encoding to a byte budget.
 */
module Utf8 {

  type Byte = b: int | 0 <= b < 256

  /** The bytes of one scalar value (RFC 3629 section 3). */
  function EncodeChar(c: char): (bs: seq<Byte>)
    ensures 1 <= |bs| <= 4
    ensures |bs| == WidthOf(c)
  {
    var cp := c as int;
    if cp < 0x80 then [cp]
    else if cp < 0x800 then [0xC0 + cp / 64, 0x80 + cp % 64]
    else if cp < 0x10000 then [0xE0 + cp / 4096, 0x80 + (cp / 64) % 64, 0x80 + cp % 64]
    else [0xF0 + cp / 262144, 0x80 + (cp / 4096) % 64, 0x80 + (cp / 64) % 64, 0x80 + cp % 64]
  }

  /** Number of bytes UTF-8 uses for a scalar value. */
  function WidthOf(c: char): nat {
    var cp := c as int;
    if cp < 0x80 then 1 else if cp < 0x800 then 2 else if cp < 0x10000 then 3 else 4
  }

  /** `s.encode("utf-8")`. */
  function Encode(s: string): (bs: seq<Byte>)
    ensures |s| <= |bs| <= 4 * |s|
  {
    if s == [] then [] else EncodeChar(s[0]) + Encode(s[1..])
  }

  /** Sequence length announced by a lead byte; 0 for a byte that cannot start one. */
  function LeadLength(b: Byte): nat {
    if b < 0x80 then 1
    else if 0xC2 <= b < 0xE0 then 2
    else if 0xE0 <= b < 0xF0 then 3
    else if 0xF0 <= b < 0xF5 then 4
    else 0
  }

  predicate IsContinuation(b: Byte) { 0x80 <= b < 0xC0 }

  /** Scalar value carried by a complete multi-byte sequence. */
  function SequenceValue(bs: seq<Byte>): int
    requires 2 <= |bs| <= 4
  {
    var b: seq<int> := bs;
    if |b| == 2 then (b[0] - 0xC0) * 64 + (b[1] - 0x80)
    else if |b| == 3 then (b[0] - 0xE0) * 4096 + (b[1] - 0x80) * 64 + (b[2] - 0x80)
    else (b[0] - 0xF0) * 262144 + (b[1] - 0x80) * 4096 + (b[2] - 0x80) * 64 + (b[3] - 0x80)
  }

  /** Does a complete n-byte sequence encode a scalar value in its shortest form? */
  predicate WellFormedSequence(bs: seq<Byte>)
    requires 2 <= |bs| <= 4
  {
    && (forall i :: 1 <= i < |bs| ==> IsContinuation(bs[i]))
    && var v := SequenceValue(bs);
    && (if |bs| == 2 then 0x80 <= v < 0x800
        else if |bs| == 3 then 0x800 <= v < 0x10000 && !(0xD800 <= v < 0xE000)
        else 0x10000 <= v < 0x110000)
  }

  /**
   * `bs.decode("utf-8", errors="ignore")`: every well-formed sequence becomes
   * its character, a sequence cut short by the end of the input is dropped,
   * and every other byte is dropped on its own. (Dropping a maximal ill-formed
   * subpart byte by byte gives the same text, since the bytes after a lead
   * byte in such a subpart are continuation bytes, which never start a
   * character.)
   */
  function DecodeIgnore(bs: seq<Byte>): string
    decreases |bs|
  {
    if bs == [] then []
    else
      var n := LeadLength(bs[0]);
      if n == 1 then [bs[0] as char] + DecodeIgnore(bs[1..])
      else if n == 0 then DecodeIgnore(bs[1..])
      else if |bs| < n && (forall i :: 1 <= i < |bs| ==> IsContinuation(bs[i])) then []
      else if n <= |bs| && WellFormedSequence(bs[..n]) then
        [SequenceValue(bs[..n]) as char] + DecodeIgnore(bs[n..])
      else DecodeIgnore(bs[1..])
  }

  /** The longest prefix of `s` whose encoding fits in `budget` bytes, taken
      whole character by whole character. */
  function FittingPrefix(s: string, budget: int): (p: string)
    ensures |p| <= |s| && p == s[..|p|]
  {
    if s == [] || WidthOf(s[0]) > budget then []
    else [s[0]] + FittingPrefix(s[1..], budget - WidthOf(s[0]))
  }

  // ---------------------------------------------------------------------
  // Facts about the encoding
  // ---------------------------------------------------------------------

  /** An ASCII string encodes to one byte per character. */
  lemma {:induction false} AsciiEncodeLength(s: string)
    requires forall i :: 0 <= i < |s| ==> s[i] < '\U{80}'
    ensures |Encode(s)| == |s|
  {
    if s != [] {
      AsciiEncodeLength(s[1..]);
    }
  }

  lemma EncodeCharLead(c: char)
    ensures LeadLength(EncodeChar(c)[0]) == WidthOf(c)
    ensures forall i :: 1 <= i < WidthOf(c) ==> IsContinuation(EncodeChar(c)[i])
  {
  }

  lemma EncodeCharWellFormed(c: char)
    requires WidthOf(c) >= 2
    ensures WellFormedSequence(EncodeChar(c))
    ensures SequenceValue(EncodeChar(c)) == c as int
  {
    var cp := c as int;
    var bs := EncodeChar(c);
    if cp < 0x800 {
      assert SequenceValue(bs) == (cp / 64) * 64 + cp % 64;
    } else if cp < 0x10000 {
      assert cp / 4096 == (cp / 64) / 64;
      assert SequenceValue(bs) == (cp / 4096) * 4096 + ((cp / 64) % 64) * 64 + cp % 64;
    } else {
      assert cp / 262144 == ((cp / 64) / 64) / 64;
      assert (cp / 4096) == (cp / 64) / 64;
      assert SequenceValue(bs) == (cp / 262144) * 262144 + ((cp / 4096) % 64) * 4096 + ((cp / 64) % 64) * 64 + cp % 64;
    }
  }

  /** Decoding consumes exactly one encoded character at the front. */
  lemma DecodeEncodedChar(c: char, rest: seq<Byte>)
    ensures DecodeIgnore(EncodeChar(c) + rest) == [c] + DecodeIgnore(rest)
  {
    var e := EncodeChar(c);
    var bs := e + rest;
    EncodeCharLead(c);
    assert bs[0] == e[0];
    if WidthOf(c) == 1 {
      assert bs[1..] == rest;
    } else {
      EncodeCharWellFormed(c);
      assert bs[..|e|] == e;
      assert bs[|e|..] == rest;
    }
  }

  /** Decoding the encoding of a string gives the string back. */
  lemma {:induction false} DecodeEncode(s: string)
    ensures DecodeIgnore(Encode(s)) == s
  {
    if s != [] {
      DecodeEncodedChar(s[0], Encode(s[1..]));
      DecodeEncode(s[1..]);
    }
  }

  /** A proper, non-empty prefix of one character's encoding decodes to nothing. */
  lemma DecodeCutChar(c: char, k: nat)
    requires 0 < k < WidthOf(c)
    ensures DecodeIgnore(EncodeChar(c)[..k]) == []
  {
    EncodeCharLead(c);
    var bs := EncodeChar(c)[..k];
    assert bs[0] == EncodeChar(c)[0];
    assert forall i :: 1 <= i < |bs| ==> IsContinuation(bs[i]);
  }

  /**
   * Cutting an encoding after `k` bytes and decoding with errors ignored
   * yields exactly the longest whole-character prefix that fits in `k` bytes.
   */
  lemma {:induction false} DecodeCutEncoding(s: string, k: nat)
    requires k <= |Encode(s)|
    ensures DecodeIgnore(Encode(s)[..k]) == FittingPrefix(s, k)
  {
    if s == [] || k == 0 {
      assert Encode(s)[..k] == [];
    } else if k < WidthOf(s[0]) {
      DecodeCutInFirst(s, k);
    } else {
      DecodeCutAfterFirst(s, k);
      DecodeCutEncoding(s[1..], k - WidthOf(s[0]));
    }
  }

  /** A cut inside the first character's encoding leaves nothing to decode. */
  lemma DecodeCutInFirst(s: string, k: nat)
    requires s != [] && 0 < k < WidthOf(s[0])
    ensures DecodeIgnore(Encode(s)[..k]) == []
  {
    var e := EncodeChar(s[0]);
    assert Encode(s)[..k] == e[..k];
    DecodeCutChar(s[0], k);
  }

  /** A cut past the first character's encoding decodes that character whole. */
  lemma DecodeCutAfterFirst(s: string, k: nat)
    requires s != [] && WidthOf(s[0]) <= k <= |Encode(s)|
    ensures k - WidthOf(s[0]) <= |Encode(s[1..])|
    ensures DecodeIgnore(Encode(s)[..k])
      == [s[0]] + DecodeIgnore(Encode(s[1..])[..k - WidthOf(s[0])])
  {
    var e := EncodeChar(s[0]);
    var rest := Encode(s[1..]);
    assert Encode(s) == e + rest;
    PrefixPastFirst(e, rest, k);
    DecodeEncodedChar(s[0], rest[..k - |e|]);
  }

  lemma PrefixPastFirst(a: seq<Byte>, b: seq<Byte>, k: nat)
    requires |a| <= k <= |a| + |b|
    ensures (a + b)[..k] == a + b[..k - |a|]
  {
  }

  // ---------------------------------------------------------------------
  // Facts about the fitting prefix
  // ---------------------------------------------------------------------

  /** The fitting prefix is a prefix of `s`, fits the budget, and is maximal:
      it is all of `s`, or the next character would overflow the budget. */
  lemma {:induction false} FittingPrefixIsLongest(s: string, budget: int)
    requires budget >= 0
    ensures var p := FittingPrefix(s, budget);
      && |Encode(p)| <= budget
      && (|p| == |s| || |Encode(p)| + WidthOf(s[|p|]) > budget)
  {
    if s != [] && WidthOf(s[0]) <= budget {
      var p := FittingPrefix(s, budget);
      var q := FittingPrefix(s[1..], budget - WidthOf(s[0]));
      FittingPrefixIsLongest(s[1..], budget - WidthOf(s[0]));
      assert p == [s[0]] + q;
      assert Encode(p) == EncodeChar(s[0]) + Encode(q) by {
        assert p[1..] == q;
      }
      if |q| < |s| - 1 {
        assert s[|p|] == s[1..][|q|];
      }
    }
  }

  /** When the whole string fits, nothing is cut. */
  lemma {:induction false} FittingPrefixWhole(s: string, budget: int)
    requires |Encode(s)| <= budget
    ensures FittingPrefix(s, budget) == s
  {
    if s != [] {
      assert Encode(s) == EncodeChar(s[0]) + Encode(s[1..]);
      FittingPrefixWhole(s[1..], budget - WidthOf(s[0]));
    }
  }
}
