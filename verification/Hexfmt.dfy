/** Base 16 text for account bytes (engine/src/hexfmt.rs): section 8 of RFC 4648, written in
    lower case and read in either case. */
module Hexfmt {
  import opened Prelude
  import opened Layout

  function HexChar(n: nat): char
    requires n < 16
  {
    if n < 10 then (48 + n) as char else (87 + n) as char
  }

  function HexValue(c: char): Option<nat> {
    if '0' <= c <= '9' then Some(c as int - 48)
    else if 'a' <= c <= 'f' then Some(c as int - 87)
    else if 'A' <= c <= 'F' then Some(c as int - 55)
    else None
  }

  function Lower(c: char): char {
    if 'A' <= c <= 'F' then (c as int + 32) as char else c
  }

  function LowerAll(s: string): string {
    if s == "" then "" else [Lower(s[0])] + LowerAll(s[1..])
  }

  function HexOf(b: Bytes): string {
    if b == [] then "" else [HexChar(b[0] / 16), HexChar(b[0] % 16)] + HexOf(b[1..])
  }

  predicate IsHex(text: string) {
    |text| % 2 == 0 && forall i :: 0 <= i < |text| ==> HexValue(text[i]).Some?
  }

  method Encode(b: Bytes) returns (out: string)
    ensures out == HexOf(b)
  {
    out := "";
    for i := 0 to |b|
      invariant out + HexOf(b[i..]) == HexOf(b)
    {
      assert b[i..] == [b[i]] + b[i + 1..];
      assert out + HexOf(b[i..]) == out + [HexChar(b[i] / 16)] + [HexChar(b[i] % 16)] + HexOf(b[i + 1..]);
      out := out + [HexChar(b[i] / 16)];
      out := out + [HexChar(b[i] % 16)];
    }
  }

  /** Reading succeeds exactly on an even number of digits, and what it returns is the only byte
      string whose hex form is the text, up to letter case. */
  method Decode(text: string) returns (r: Option<Bytes>)
    ensures r.Some? <==> IsHex(text)
    ensures r.Some? ==> HexOf(r.value) == LowerAll(text)
  {
    if |text| % 2 != 0 {
      return None;
    }
    var out: Bytes := [];
    var i := 0;
    while i < |text|
      invariant 0 <= i <= |text| && i % 2 == 0
      invariant forall k :: 0 <= k < i ==> HexValue(text[k]).Some?
      invariant HexOf(out) == LowerAll(text[..i])
    {
      var hi := HexValue(text[i]);
      if hi == None {
        return None;
      }
      var lo := HexValue(text[i + 1]);
      if lo == None {
        return None;
      }
      PairByte(text[i], text[i + 1]);
      var byte: u8 := hi.value * 16 + lo.value;
      assert forall k :: 0 <= k < i + 2 ==> HexValue(text[k]).Some?;
      PairPush(out, text, i, byte);
      hide *;
      out := out + [byte];
      i := i + 2;
    }
    assert text[..i] == text;
    return Some(out);
  }

  lemma PairByte(hi: char, lo: char)
    requires HexValue(hi).Some? && HexValue(lo).Some?
    ensures var byte := HexValue(hi).value * 16 + HexValue(lo).value;
      byte <= 0xFF && HexChar(byte / 16) == Lower(hi) && HexChar(byte % 16) == Lower(lo)
  {
  }

  lemma PairPush(out: Bytes, text: string, i: nat, byte: u8)
    requires i + 2 <= |text| && HexOf(out) == LowerAll(text[..i])
    requires HexChar(byte / 16) == Lower(text[i]) && HexChar(byte % 16) == Lower(text[i + 1])
    ensures HexOf(out + [byte]) == LowerAll(text[..i + 2])
  {
    HexPush(out, byte);
    LowerPush(text[..i], text[i]);
    LowerPush(text[..i] + [text[i]], text[i + 1]);
    assert text[..i + 2] == text[..i] + [text[i]] + [text[i + 1]];
    hide HexOf, LowerAll, HexChar, Lower;
  }

  lemma {:induction false} HexPush(b: Bytes, x: u8)
    ensures HexOf(b + [x]) == HexOf(b) + [HexChar(x / 16)] + [HexChar(x % 16)]
  {
    if b == [] {
      assert b + [x] == [x] && [x][1..] == [];
    } else {
      HexPush(b[1..], x);
      assert b + [x] == [b[0]] + (b[1..] + [x]);
    }
  }

  lemma {:induction false} LowerPush(s: string, c: char)
    ensures LowerAll(s + [c]) == LowerAll(s) + [Lower(c)]
  {
    if s == "" {
      assert s + [c] == [c];
    } else {
      LowerPush(s[1..], c);
      assert s + [c] == [s[0]] + (s[1..] + [c]);
    }
  }

  /** Two byte strings with the same hex form are equal, so decoding an encoding is lossless. */
  lemma {:induction false} HexInjective(a: Bytes, b: Bytes)
    requires HexOf(a) == HexOf(b)
    ensures a == b
  {
    if a != [] && b != [] {
      var x, y := HexOf(a), HexOf(b);
      assert x[0] == HexChar(a[0] / 16) && x[1] == HexChar(a[0] % 16) && x[2..] == HexOf(a[1..]);
      assert y[0] == HexChar(b[0] / 16) && y[1] == HexChar(b[0] % 16) && y[2..] == HexOf(b[1..]);
      HexInjective(a[1..], b[1..]);
      assert a == [a[0]] + a[1..] && b == [b[0]] + b[1..];
    }
  }

  lemma {:induction false} HexIsHex(b: Bytes)
    ensures IsHex(HexOf(b)) && LowerAll(HexOf(b)) == HexOf(b)
  {
    if b != [] {
      HexIsHex(b[1..]);
      LowerPair(HexChar(b[0] / 16), HexChar(b[0] % 16), HexOf(b[1..]));
    }
  }

  lemma LowerPair(hi: char, lo: char, t: string)
    requires Lower(hi) == hi && Lower(lo) == lo
    ensures LowerAll([hi, lo] + t) == [hi, lo] + LowerAll(t)
  {
  }

  /** What was written is read back. */
  method RoundTrip(b: Bytes) returns (r: Option<Bytes>)
    ensures r == Some(b)
  {
    var text := Encode(b);
    HexIsHex(b);
    r := Decode(text);
    HexInjective(r.value, b);
  }
}
