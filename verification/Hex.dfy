/** Hexadecimal text: the printers of the firmware and of the web page, the page-side decoder's
    counterpart in the web server, and the two `hex_to_bin` parsers of the TCP server and client. */
module Hex {
  import opened Common

  // ---------------------------------------------------------------- digits

  predicate IsHex(c: char) {
    '0' <= c <= '9' || 'A' <= c <= 'F' || 'a' <= c <= 'f'
  }

  predicate NotSpace(c: char) { c != ' ' }

  function Value(c: char): byte {
    match c
    case '1' => 1 case '2' => 2 case '3' => 3 case '4' => 4 case '5' => 5
    case '6' => 6 case '7' => 7 case '8' => 8 case '9' => 9
    case 'A' => 10 case 'B' => 11 case 'C' => 12 case 'D' => 13 case 'E' => 14 case 'F' => 15
    case 'a' => 10 case 'b' => 11 case 'c' => 12 case 'd' => 13 case 'e' => 14 case 'f' => 15
    case _ => 0
  }

  function Digit(n: byte): char
    requires n < 16
  {
    match n
    case 0 => '0' case 1 => '1' case 2 => '2' case 3 => '3' case 4 => '4'
    case 5 => '5' case 6 => '6' case 7 => '7' case 8 => '8' case 9 => '9'
    case 10 => 'A' case 11 => 'B' case 12 => 'C' case 13 => 'D' case 14 => 'E' case _ => 'F'
  }

  function Join(high: byte, low: byte): byte { (high << 4) | low }

  /** Two uppercase digits, as "%02X" and toString(16).padStart(2, '0').toUpperCase() print them. */
  function Pair(b: byte): (s: string)
    ensures |s| == 2
  {
    assert b >> 4 < 16 && b & 0xF < 16;
    [Digit(b >> 4), Digit(b & 0xF)]
  }

  lemma DigitReads(n: byte)
    requires n < 16
    ensures IsHex(Digit(n)) && Value(Digit(n)) == n
  {
  }

  lemma PairReads(b: byte)
    ensures IsHex(Pair(b)[0]) && IsHex(Pair(b)[1])
    ensures Join(Value(Pair(b)[0]), Value(Pair(b)[1])) == b
  {
    hide Digit, Value, IsHex;
    NibblesFit(b);
    DigitReads(b >> 4);
    DigitReads(b & 0xF);
  }

  lemma NibblesFit(b: byte)
    ensures b >> 4 < 16 && b & 0xF < 16 && Join(b >> 4, b & 0xF) == b
  {
  }

  /** The digits by their character codes. */
  function Num(c: char): int
    requires IsHex(c)
  {
    if c <= '9' then c as int - '0' as int
    else if c <= 'F' then c as int - 'A' as int + 10
    else c as int - 'a' as int + 10
  }

  lemma HexDigits(c: char)
    ensures IsHex(c) <==> c in "0123456789ABCDEFabcdef"
  {
  }

  lemma ValueOf(c: char)
    ensures IsHex(c) ==> Value(c) as int == Num(c) && Value(c) < 16
  {
  }

  lemma DigitOf(n: byte)
    requires n < 16
    ensures Digit(n) as int == if n < 10 then '0' as int + n as int else 'A' as int + (n as int - 10)
  {
  }

  lemma JoinOf(high: byte, low: byte)
    requires high < 16 && low < 16
    ensures Join(high, low) as int == 16 * (high as int) + low as int
  {
  }

  /** The high digit comes first. */
  lemma PairOf(b: byte)
    ensures IsHex(Pair(b)[0]) && IsHex(Pair(b)[1]) && b as int == 16 * Num(Pair(b)[0]) + Num(Pair(b)[1])
    ensures forall k :: 0 <= k < 2 ==> Pair(b)[k] in "0123456789ABCDEF"
  {
    NibblesFit(b);
    PairReads(b);
    PairUpper(b);
    hide Digit, Value, IsHex, Num, Join, Pair;
    ValueOf(Pair(b)[0]);
    ValueOf(Pair(b)[1]);
    JoinOf(Value(Pair(b)[0]), Value(Pair(b)[1]));
  }

  lemma PairUpper(b: byte)
    ensures forall k :: 0 <= k < 2 ==> Pair(b)[k] in "0123456789ABCDEF"
  {
    NibblesFit(b);
  }

  // ---------------------------------------------------------------- printers

  function Print(bytes: seq<byte>): string {
    if bytes == [] then "" else Pair(bytes[0]) + Print(bytes[1..])
  }

  /** The page's `bytesToHex`: pairs joined by single spaces. */
  function BytesToHex(bytes: seq<byte>): string {
    if bytes == [] then ""
    else if |bytes| == 1 then Pair(bytes[0])
    else Pair(bytes[0]) + " " + BytesToHex(bytes[1..])
  }

  /** The firmware's `"%02X "` loop: every pair followed by a space. */
  function Spaced(bytes: seq<byte>): string {
    if bytes == [] then "" else Spaced(bytes[..|bytes| - 1]) + Pair(bytes[|bytes| - 1]) + " "
  }

  // ---------------------------------------------------------------- filters

  function Keep(s: string, keep: char -> bool): string {
    if s == "" then ""
    else Keep(s[..|s| - 1], keep) + (if keep(s[|s| - 1]) then [s[|s| - 1]] else "")
  }

  lemma {:induction false} KeepAppend(s: string, t: string, keep: char -> bool)
    ensures Keep(s + t, keep) == Keep(s, keep) + Keep(t, keep)
    decreases |t|
  {
    if t == "" {
      assert s + t == s;
    } else {
      assert (s + t)[..|s + t| - 1] == s + t[..|t| - 1];
      KeepAppend(s, t[..|t| - 1], keep);
    }
  }

  lemma {:induction false} KeepAll(s: string, keep: char -> bool)
    requires forall i :: 0 <= i < |s| ==> keep(s[i])
    ensures Keep(s, keep) == s
    decreases |s|
  {
    if s != "" {
      KeepAll(s[..|s| - 1], keep);
    }
  }

  lemma {:induction false} KeptAreKept(s: string, keep: char -> bool)
    ensures forall i :: 0 <= i < |Keep(s, keep)| ==> keep(Keep(s, keep)[i])
    ensures |Keep(s, keep)| <= |s|
    decreases |s|
  {
    if s != "" {
      KeptAreKept(s[..|s| - 1], keep);
    }
  }

  predicate AllHex(s: string) {
    forall i :: 0 <= i < |s| ==> IsHex(s[i])
  }

  // ---------------------------------------------------------------- reading pairs

  /** strtol(two characters, NULL, 16) stored into a byte, on strings without spaces. */
  function Strtol2(c: char, d: char): byte {
    if IsHex(c) then (if IsHex(d) then Join(Value(c), Value(d)) else Value(c))
    else if c in "\t\n\r" || c == 11 as char || c == 12 as char || c == '+' then
      if IsHex(d) then Value(d) else 0
    else if c == '-' then
      if IsHex(d) then 0 - Value(d) else 0
    else 0
  }

  function ReadPairs(s: string): (bytes: seq<byte>)
    requires |s| % 2 == 0
    ensures |bytes| == |s| / 2
  {
    seq(|s| / 2, i requires 0 <= i < |s| / 2 => Strtol2(s[2 * i], s[2 * i + 1]))
  }

  lemma {:induction false} ReadPrint(bytes: seq<byte>)
    ensures |Print(bytes)| == 2 * |bytes| && AllHex(Print(bytes)) && ReadPairs(Print(bytes)) == bytes
    decreases |bytes|
  {
    hide IsHex, Value, Join, Pair;
    if bytes != [] {
      var rest := Print(bytes[1..]);
      ReadPrint(bytes[1..]);
      PairReads(bytes[0]);
      forall i | 0 <= i < |bytes|
        ensures ReadPairs(Print(bytes))[i] == bytes[i]
      {
        if i > 0 {
          assert ReadPairs(rest)[i - 1] == bytes[1..][i - 1];
        }
      }
    }
  }

  /** The value of the longest run of digits at the start. */
  function Digits(s: string, value: int): int {
    if s == "" || !IsHex(s[0]) then value else Digits(s[1..], 16 * value + Num(s[0]))
  }

  /** strtol(s, NULL, 16) as the C standard has it, section 7.22.1.4, for texts in which a prefix 0x
      could have no digit after it: white space, a sign, digits. */
  function Strtol(s: string): int {
    if s == "" then 0
    else if s[0] == ' ' || 9 as char <= s[0] <= 13 as char then Strtol(s[1..])
    else if s[0] == '-' then -Digits(s[1..], 0)
    else if s[0] == '+' then Digits(s[1..], 0)
    else Digits(s, 0)
  }

  lemma StrtolOne(d: char)
    ensures Strtol([d]) == Digits([d], 0) == if IsHex(d) then Num(d) else 0
  {
    assert [d][1..] == "";
  }

  lemma StrtolTwo(c: char, d: char)
    requires IsHex(c)
    ensures Strtol([c, d]) == if IsHex(d) then 16 * Num(c) + Num(d) else Num(c)
  {
    assert [c, d][1..] == [d] && [d][1..] == "";
    assert Digits([d], Num(c)) == if IsHex(d) then 16 * Num(c) + Num(d) else Num(c);
  }

  lemma StrtolRest(c: char, d: char)
    requires !IsHex(c) && NotSpace(c)
    ensures Strtol([c, d]) ==
            if c == '-' then -Digits([d], 0)
            else if c == '+' || c in "\t\n\r" || c == 11 as char || c == 12 as char then Digits([d], 0)
            else 0
  {
    StrtolOne(d);
    assert [c, d][1..] == [d];
  }

  lemma Negated(v: byte)
    requires v < 16
    ensures (0 - v) as int == (-(v as int)) % 256
  {
  }

  lemma DigitFirst(c: char, d: char)
    requires IsHex(c)
    ensures Strtol2(c, d) as int == if IsHex(d) then 16 * Num(c) + Num(d) else Num(c)
    ensures 0 <= Num(c) < 16 && (IsHex(d) ==> 0 <= Num(d) < 16)
  {
    hide Value, Join, IsHex, Num;
    ValueOf(c);
    ValueOf(d);
    if IsHex(d) {
      JoinOf(Value(c), Value(d));
    }
  }

  lemma OtherFirst(c: char, d: char)
    requires !IsHex(c) && NotSpace(c)
    ensures Strtol2(c, d) as int == Strtol([c, d]) % 256
  {
    hide Strtol, Digits, Value, IsHex, Num, Join;
    StrtolRest(c, d);
    StrtolOne(d);
    ValueOf(d);
    if IsHex(d) {
      Negated(Value(d));
    }
  }

  /** Each byte is what `strtol` makes of its two characters, cut to eight bits. */
  lemma Strtol2IsStrtol(c: char, d: char)
    requires NotSpace(c) && NotSpace(d)
    ensures Strtol2(c, d) as int == Strtol([c, d]) % 256
  {
    hide Strtol, Strtol2, IsHex, Num;
    if IsHex(c) {
      DigitFirst(c, d);
      StrtolTwo(c, d);
    } else {
      OtherFirst(c, d);
    }
  }

  /** What is read from a pair of digits, whichever letters they are written with. */
  lemma ReadPairsAt(s: string, k: nat)
    requires |s| % 2 == 0 && k < |s| / 2 && AllHex(s)
    ensures ReadPairs(s)[k] as int == 16 * Num(s[2 * k]) + Num(s[2 * k + 1])
  {
    hide Value, Join, IsHex, Num;
    ValueOf(s[2 * k]);
    ValueOf(s[2 * k + 1]);
    JoinOf(Value(s[2 * k]), Value(s[2 * k + 1]));
  }

  function Lowered(c: char): char {
    if 'A' <= c <= 'Z' then c - 'A' + 'a' else c
  }

  function Lower(s: string): (t: string)
    ensures |t| == |s|
  {
    seq(|s|, i requires 0 <= i < |s| => Lowered(s[i]))
  }

  lemma LoweredDigit(c: char)
    ensures IsHex(Lowered(c)) <==> IsHex(c)
    ensures Value(Lowered(c)) == Value(c)
  {
  }

  lemma LoweredPair(c: char, d: char)
    ensures Strtol2(Lowered(c), Lowered(d)) == Strtol2(c, d)
  {
    LoweredDigit(c);
    LoweredDigit(d);
    hide Value, Join;
  }

  lemma LowerReads(s: string)
    requires |s| % 2 == 0
    ensures ReadPairs(Lower(s)) == ReadPairs(s)
  {
    forall k | 0 <= k < |s| / 2 ensures ReadPairs(Lower(s))[k] == ReadPairs(s)[k] {
      LoweredPair(s[2 * k], s[2 * k + 1]);
    }
  }

  lemma {:induction false} LowerKept(s: string, keep: char -> bool)
    requires forall c :: keep(Lowered(c)) == keep(c)
    ensures Keep(Lower(s), keep) == Lower(Keep(s, keep))
    decreases |s|
  {
    if s != "" {
      LowerKept(s[..|s| - 1], keep);
      assert Lower(s)[..|s| - 1] == Lower(s[..|s| - 1]);
    }
  }

  lemma PairNotSpace(b: byte)
    ensures Keep(Pair(b), NotSpace) == Pair(b) && Keep(" ", NotSpace) == ""
  {
    PairReads(b);
    assert Pair(b)[0] != ' ' && Pair(b)[1] != ' ';
    KeepAll(Pair(b), NotSpace);
    assert " "[..0] == "";
  }

  lemma {:induction false} SpacesVanish(bytes: seq<byte>)
    ensures Keep(BytesToHex(bytes), NotSpace) == Print(bytes)
    decreases |bytes|
  {
    hide Pair;
    if bytes != [] {
      PairNotSpace(bytes[0]);
      SpacesVanish(bytes[1..]);
      if |bytes| > 1 {
        KeepAppend(Pair(bytes[0]) + " ", BytesToHex(bytes[1..]), NotSpace);
        KeepAppend(Pair(bytes[0]), " ", NotSpace);
      }
    }
  }

  lemma {:induction false} SeparatorsVanish(bytes: seq<byte>)
    ensures Keep(BytesToHex(bytes), IsHex) == Print(bytes)
    decreases |bytes|
  {
    hide Pair;
    if bytes != [] {
      PairReads(bytes[0]);
      KeepAll(Pair(bytes[0]), IsHex);
      assert " "[..0] == "" && Keep(" ", IsHex) == "";
      SeparatorsVanish(bytes[1..]);
      if |bytes| > 1 {
        KeepAppend(Pair(bytes[0]) + " ", BytesToHex(bytes[1..]), IsHex);
        KeepAppend(Pair(bytes[0]), " ", IsHex);
      }
    }
  }

  // ---------------------------------------------------------------- the web server's decoder

  datatype Decoded = Payload(data: seq<byte>) | InvalidArg | NoMemory

  function AsciiBytes(text: string): seq<byte> {
    seq(|text|, i requires 0 <= i < |text| => ((text[i] as int) % 256) as byte)
  }

  function Decode(text: string, hexMode: bool, cleanAllocated: bool, dataAllocated: bool): Decoded {
    if text == "" then InvalidArg
    else if hexMode then
      if !cleanAllocated then NoMemory
      else
        var clean := Keep(text, NotSpace);
        if |clean| % 2 != 0 then InvalidArg
        else if !dataAllocated then NoMemory
        else Payload(ReadPairs(clean))
    else if !dataAllocated then NoMemory
    else Payload(AsciiBytes(text))
  }

  /** `decode_instruction_payload`. */
  method DecodeInstructionPayload(text: string, hexMode: bool, cleanAllocated: bool, dataAllocated: bool)
    returns (r: Decoded)
    ensures r == Decode(text, hexMode, cleanAllocated, dataAllocated)
  {
    hide Value, IsHex, Join;
    if |text| == 0 {
      return InvalidArg;
    }
    if hexMode {
      if !cleanAllocated {
        return NoMemory;
      }
      var clean := "";
      for i := 0 to |text|
        invariant clean == Keep(text[..i], NotSpace)
      {
        assert text[..i + 1][..i] == text[..i];
        if text[i] != ' ' {
          clean := clean + [text[i]];
        }
      }
      assert text[..|text|] == text;
      if |clean| % 2 != 0 {
        return InvalidArg;
      }
      if !dataAllocated {
        return NoMemory;
      }
      var data := new byte[|clean| / 2];
      var i := 0;
      while i < |clean|
        invariant 0 <= i <= |clean| && i % 2 == 0
        invariant forall k :: 0 <= k < i / 2 ==> data[k] == Strtol2(clean[2 * k], clean[2 * k + 1])
      {
        data[i / 2] := Strtol2(clean[i], clean[i + 1]);
        i := i + 2;
      }
      assert data[..] == ReadPairs(clean);
      return Payload(data[..]);
    }
    if !dataAllocated {
      return NoMemory;
    }
    return Payload(AsciiBytes(text));
  }

  lemma DecodedShorter(text: string, hexMode: bool, cleanAllocated: bool, dataAllocated: bool)
    requires Decode(text, hexMode, cleanAllocated, dataAllocated).Payload?
    ensures |Decode(text, hexMode, cleanAllocated, dataAllocated).data| <= |text|
  {
    KeptAreKept(text, NotSpace);
  }

  /** Whatever the page prints, the web server decodes to the same bytes. */
  lemma DecodeUndoesPrint(bytes: seq<byte>)
    requires bytes != []
    ensures Decode(BytesToHex(bytes), true, true, true) == Payload(bytes)
  {
    SpacesVanish(bytes);
    ReadPrint(bytes);
  }

  /** Which failure when: an odd number of characters is found before the second allocation. */
  lemma DecodeOutcome(text: string, hexMode: bool, cleanAllocated: bool, dataAllocated: bool)
    ensures
      var r := Decode(text, hexMode, cleanAllocated, dataAllocated);
      var odd := hexMode && |Keep(text, NotSpace)| % 2 == 1;
      && (r.InvalidArg? <==> text == "" || (odd && cleanAllocated))
      && (r.NoMemory? <==> text != "" && ((hexMode && !cleanAllocated) || (!odd && !dataAllocated)))
  {
  }

  /** Spaces anywhere, upper or lower case: the same bytes. */
  lemma DecodeIgnores(a: string, b: string, memory: bool)
    requires a + b != ""
    ensures Decode(a + " " + b, true, true, memory) == Decode(a + b, true, true, memory)
    ensures Decode(Lower(a + b), true, true, memory) == Decode(a + b, true, true, memory)
  {
    hide ReadPairs, Lower;
    KeepAppend(a + " ", b, NotSpace);
    KeepAppend(a, " ", NotSpace);
    KeepAppend(a, b, NotSpace);
    PairNotSpace(0);
    assert Keep(a + " " + b, NotSpace) == Keep(a + b, NotSpace);
    assert a + " " + b != "" by { assert (a + " " + b)[|a|] == ' '; }
    LowerKept(a + b, NotSpace);
    var clean := Keep(a + b, NotSpace);
    if |clean| % 2 == 0 {
      LowerReads(clean);
    }
  }

  /** A decoded text of digits gives the bytes they spell; other pairs what `strtol` makes of them. */
  lemma DecodedAt(text: string, k: nat)
    requires Decode(text, true, true, true).Payload?
    ensures
      var clean, data := Keep(text, NotSpace), Decode(text, true, true, true).data;
      && |clean| == 2 * |data|
      && (k < |data| ==> data[k] as int == Strtol(clean[2 * k..2 * k + 2]) % 256)
      && (k < |data| && IsHex(clean[2 * k]) && IsHex(clean[2 * k + 1]) ==>
          data[k] as int == 16 * Num(clean[2 * k]) + Num(clean[2 * k + 1]))
  {
    hide Strtol, Strtol2, Num, IsHex;
    KeptAreKept(text, NotSpace);
    var clean := Keep(text, NotSpace);
    if k < |clean| / 2 {
      var c, d := clean[2 * k], clean[2 * k + 1];
      assert clean[2 * k..2 * k + 2] == [c, d];
      Strtol2IsStrtol(c, d);
      if IsHex(c) && IsHex(d) {
        ReadPairsAt([c, d], 0);
        assert ReadPairs([c, d])[0] == Strtol2(c, d);
      }
    }
  }

  /** In text mode every character is its code. */
  lemma TextBytes(text: string, k: nat)
    requires k < |text| && text[k] as int < 256
    ensures |AsciiBytes(text)| == |text| && AsciiBytes(text)[k] as int == text[k] as int
  {
    var code := text[k] as int;
    ByteBack(code);
    assert AsciiBytes(text)[k] == (code % 256) as byte;
    hide AsciiBytes;
  }

  lemma ByteBack(code: int)
    requires 0 <= code < 256
    ensures (code % 256) as byte as int == code
  {
  }

  lemma {:induction false} HexLength(bytes: seq<byte>)
    ensures |BytesToHex(bytes)| == if bytes == [] then 0 else 3 * |bytes| - 1
    decreases |bytes|
  {
    if |bytes| > 1 {
      HexLength(bytes[1..]);
    }
  }

  /** In hex mode only the allocations decide between an answer and `NoMemory`. */
  lemma DecodePossible(text: string, cleanAllocated: bool, dataAllocated: bool)
    requires Decode(text, true, true, true).Payload?
    ensures Decode(text, true, cleanAllocated, dataAllocated) ==
            if cleanAllocated && dataAllocated then Decode(text, true, true, true) else NoMemory
  {
  }

  // ---------------------------------------------------------------- the two hex_to_bin parsers

  datatype Parsed = Nothing | Parsed(data: seq<byte>) {
    function Length(): nat { if Nothing? then 0 else |data| }
  }

  predicate HasPrefix(s: string) {
    |s| >= 2 && s[0] == '0' && (s[1] == 'x' || s[1] == 'X')
  }

  function Body(s: string): string {
    if HasPrefix(s) then s[2..] else s
  }

  function ParseBody(s: string, maxLen: int): Parsed {
    if |s| % 2 != 0 || |s| / 2 > maxLen || !AllHex(s) then Nothing else Parsed(ReadPairs(s))
  }

  /** The TCP server accepts digits only, after an optional 0x. */
  function ServerParse(s: string, maxLen: int): Parsed {
    ParseBody(Body(s), maxLen)
  }

  /** The TCP client drops every character that is not a digit first. */
  function ClientParse(s: string, maxLen: int): Parsed {
    ParseBody(Keep(Body(s), IsHex), maxLen)
  }

  /** `hex_to_bin` of the TCP server; returns 0 and leaves junk behind when it gives up. */
  method ServerHexToBin(hex: string, bin: array<byte>, maxLen: int) returns (n: nat)
    requires maxLen <= bin.Length
    modifies bin
    ensures n == ServerParse(hex, maxLen).Length() <= bin.Length
    ensures ServerParse(hex, maxLen).Parsed? ==> bin[..n] == ServerParse(hex, maxLen).data
    ensures forall k :: maxLen <= k < bin.Length && k >= 0 ==> bin[k] == old(bin[k])
  {
    var str := Body(hex);
    n := FillPairs(str, bin, maxLen);
  }

  /** The loop both parsers share, two characters to a byte, high nibble first. */
  method FillPairs(str: string, bin: array<byte>, maxLen: int) returns (n: nat)
    requires maxLen <= bin.Length
    modifies bin
    ensures n == ParseBody(str, maxLen).Length() <= bin.Length
    ensures ParseBody(str, maxLen).Parsed? ==> bin[..n] == ParseBody(str, maxLen).data
    ensures forall k :: maxLen <= k < bin.Length && k >= 0 ==> bin[k] == old(bin[k])
  {
    hide Value, Join;
    if |str| % 2 != 0 {
      return 0;
    }
    var binLen := |str| / 2;
    if binLen > maxLen {
      return 0;
    }
    for i := 0 to binLen
      invariant AllHex(str[..2 * i])
      invariant forall k :: 0 <= k < i ==> bin[k] == Join(Value(str[2 * k]), Value(str[2 * k + 1]))
      invariant forall k :: binLen <= k < bin.Length ==> bin[k] == old(bin[k])
    {
      var high, low := str[i * 2], str[i * 2 + 1];
      if !IsHex(high) {
        return 0;
      }
      bin[i] := Value(high) << 4;
      if !IsHex(low) {
        return 0;
      }
      bin[i] := bin[i] | Value(low);
      JoinIsShiftOr(Value(high), Value(low));
    }
    assert str[..2 * binLen] == str;
    assert bin[..binLen] == ReadPairs(str);
    return binLen;
  }

  lemma JoinIsShiftOr(high: byte, low: byte)
    ensures (high << 4) | low == Join(high, low)
  {
  }

  /** `hex_to_bin` of the TCP client. */
  method ClientHexToBin(hex: string, bin: array<byte>, maxLen: int, memoryOk: bool) returns (n: nat)
    requires maxLen <= bin.Length
    modifies bin
    ensures !memoryOk ==> n == 0
    ensures memoryOk ==> n == ClientParse(hex, maxLen).Length() <= bin.Length
    ensures memoryOk && ClientParse(hex, maxLen).Parsed? ==> bin[..n] == ClientParse(hex, maxLen).data
    ensures forall k :: maxLen <= k < bin.Length && k >= 0 ==> bin[k] == old(bin[k])
  {
    var str := Body(hex);
    if !memoryOk {
      return 0;
    }
    var clean := "";
    for i := 0 to |str|
      invariant clean == Keep(str[..i], IsHex)
    {
      assert str[..i + 1][..i] == str[..i];
      if IsHex(str[i]) {
        clean := clean + [str[i]];
      }
    }
    assert str[..|str|] == str;
    n := FillPairs(clean, bin, maxLen);
  }

  /** On every input the strict parser is the lenient one restricted to separator-free text. */
  lemma ServerIsStrictClient(s: string, maxLen: int)
    ensures ServerParse(s, maxLen) == if AllHex(Body(s)) then ClientParse(s, maxLen) else Nothing
  {
    if AllHex(Body(s)) {
      KeepAll(Body(s), IsHex);
    }
  }

  /** Both parsers read back every printed byte string that fits, with or without 0x. */
  lemma ParsersReadPrint(bytes: seq<byte>, maxLen: int)
    requires |bytes| <= maxLen
    ensures ServerParse(Print(bytes), maxLen) == ClientParse(Print(bytes), maxLen) == Parsed(bytes)
    ensures ServerParse("0x" + Print(bytes), maxLen) == ClientParse("0x" + Print(bytes), maxLen) == Parsed(bytes)
  {
    ReadPrint(bytes);
    assert !HasPrefix(Print(bytes));
    assert ("0x" + Print(bytes))[2..] == Print(bytes);
    KeepAll(Print(bytes), IsHex);
  }

  /** The ways to write the digits t: with no prefix or one of two. */
  predicate Spells(s: string, t: string) {
    s == t || s == "0x" + t || s == "0X" + t
  }

  lemma SpelledBody(s: string, t: string)
    requires AllHex(t)
    ensures Spells(s, t) <==> Body(s) == t
  {
    if s == "0x" + t || s == "0X" + t {
      assert s[2..] == t;
    }
    if Body(s) == t && HasPrefix(s) {
      assert s == [s[0], s[1]] + t;
    }
    if s == t && |t| >= 2 {
      assert IsHex(t[1]);
    }
  }

  /** The strict parser takes a text exactly if it spells an even number of digits that fit, */
  lemma ServerAccepts(s: string, maxLen: int)
    ensures ServerParse(s, maxLen).Parsed? <==>
            exists t: string :: AllHex(t) && Spells(s, t) && |t| % 2 == 0 && |t| / 2 <= maxLen
  {
    hide AllHex, Spells, Body;
    if ServerParse(s, maxLen).Parsed? {
      SpelledBody(s, Body(s));
    }
    forall t: string | AllHex(t) && Spells(s, t) ensures t == Body(s) {
      SpelledBody(s, t);
    }
  }

  /** and then gives the bytes they stand for; */
  lemma ServerReads(s: string, t: string, maxLen: int, k: nat)
    requires AllHex(t) && Spells(s, t) && |t| % 2 == 0 && k < |t| / 2 <= maxLen
    ensures ServerParse(s, maxLen).Length() == |t| / 2
    ensures ServerParse(s, maxLen).data[k] as int == 16 * Num(t[2 * k]) + Num(t[2 * k + 1])
  {
    SpelledBody(s, t);
    ReadPairsAt(t, k);
    hide Num, IsHex;
  }

  /** the lenient one gives what the digits alone stand for. */
  lemma ClientReads(s: string, maxLen: int, k: nat)
    requires ClientParse(s, maxLen).Parsed?
    ensures
      var digits := Keep(Body(s), IsHex);
      && |digits| == 2 * |ClientParse(s, maxLen).data|
      && (k < |ClientParse(s, maxLen).data| ==>
          ClientParse(s, maxLen).data[k] as int == 16 * Num(digits[2 * k]) + Num(digits[2 * k + 1]))
  {
    var digits := Keep(Body(s), IsHex);
    KeptAreKept(Body(s), IsHex);
    if k < |digits| / 2 {
      ReadPairsAt(digits, k);
    }
    hide Num, IsHex, Keep;
  }

  /** Both parsers read upper and lower case alike, the prefix included. */
  lemma CaseIgnored(s: string, maxLen: int)
    ensures ServerParse(Lower(s), maxLen) == ServerParse(s, maxLen)
    ensures ClientParse(Lower(s), maxLen) == ClientParse(s, maxLen)
  {
    LowerBody(s);
    assert forall c :: IsHex(Lowered(c)) == IsHex(c) by { forall c { LoweredDigit(c); } }
    LowerKept(Body(s), IsHex);
    LowerParsed(Body(s), maxLen);
    LowerParsed(Keep(Body(s), IsHex), maxLen);
  }

  lemma LowerBody(s: string)
    ensures Body(Lower(s)) == Lower(Body(s))
  {
    if HasPrefix(s) {
      assert Lower(s)[2..] == Lower(s[2..]);
    }
  }

  lemma LowerParsed(s: string, maxLen: int)
    ensures ParseBody(Lower(s), maxLen) == ParseBody(s, maxLen)
  {
    hide ReadPairs;
    forall i | 0 <= i < |s| ensures IsHex(Lower(s)[i]) <==> IsHex(s[i]) {
      LoweredDigit(s[i]);
    }
    assert AllHex(Lower(s)) <==> AllHex(s) by {
      if AllHex(Lower(s)) {
        forall i | 0 <= i < |s| ensures IsHex(s[i]) { assert IsHex(Lower(s)[i]); }
      }
    }
    if |s| % 2 == 0 {
      LowerReads(s);
    }
  }

  lemma KeepHead(s: string)
    requires |s| >= 2
    ensures Keep(s, IsHex) == Keep(s[..2], IsHex) + Keep(s[2..], IsHex)
  {
    assert s == s[..2] + s[2..];
    KeepAppend(s[..2], s[2..], IsHex);
  }

  lemma PrefixDigits(s: string)
    requires HasPrefix(s)
    ensures Keep(s, IsHex) == "0" + Keep(Body(s), IsHex)
  {
    KeepHead(s);
    var head := s[..2];
    assert head[..|head| - 1] == [s[0]];
    assert [s[0]][..|[s[0]]| - 1] == "";
    assert Keep([s[0]], IsHex) == "0";
  }

  lemma SameDigits(a: string, separator: char, b: string)
    requires !IsHex(separator)
    ensures Keep(a + [separator] + b, IsHex) == Keep(a + b, IsHex)
  {
    KeepAppend(a + [separator], b, IsHex);
    KeepAppend(a, b, IsHex);
    assert (a + [separator])[..|a|] == a;
  }

  /** What the parser is left with, in terms of all the digits of the text. */
  lemma BodyDigits(s: string)
    ensures HasPrefix(s) ==> |Keep(s, IsHex)| >= 1 && Keep(Body(s), IsHex) == Keep(s, IsHex)[1..]
    ensures !HasPrefix(s) ==> Keep(Body(s), IsHex) == Keep(s, IsHex)
  {
    if HasPrefix(s) {
      PrefixDigits(s);
      assert ("0" + Keep(Body(s), IsHex))[1..] == Keep(Body(s), IsHex);
    }
  }

  /** What a caller sees of a parse: a failure and an empty text both give 0 and write nothing. */
  function Result(p: Parsed): seq<byte> { if p.Nothing? then [] else p.data }

  lemma ResultSize(s: string, maxLen: int)
    ensures |Result(ParseBody(s, maxLen))| ==
            if AllHex(s) && |s| % 2 == 0 && |s| / 2 <= maxLen then |s| / 2 else 0
  {
  }

  /** A separator put anywhere leaves the client's result alone exactly if it neither makes nor breaks
      the 0x prefix; or if the digits, of which one more or less then counts, are too many in either
      case, or just the one leading zero, which is too few. */
  lemma SeparatorIgnored(a: string, separator: char, b: string, maxLen: int)
    requires !IsHex(separator)
    ensures
      var digits := |Keep(a + b, IsHex)|;
      Result(ClientParse(a + [separator] + b, maxLen)) == Result(ClientParse(a + b, maxLen)) <==>
      HasPrefix(a + [separator] + b) == HasPrefix(a + b) || digits / 2 > maxLen || digits == 1
  {
    var s, t := a + [separator] + b, a + b;
    SameDigits(a, separator, b);
    BodyDigits(s);
    BodyDigits(t);
    KeptAreKept(t, IsHex);
    KeptAreKept(Body(s), IsHex);
    KeptAreKept(Body(t), IsHex);
    ResultSize(Keep(Body(s), IsHex), maxLen);
    ResultSize(Keep(Body(t), IsHex), maxLen);
    hide Keep, HasPrefix, Body, ReadPairs, ParseBody, Result, IsHex;
  }

  /** From position two on it cannot change the prefix. */
  lemma LaterSeparatorIgnored(a: string, separator: char, b: string, maxLen: int)
    requires !IsHex(separator) && |a| >= 2
    ensures ClientParse(a + [separator] + b, maxLen) == ClientParse(a + b, maxLen)
  {
    SameDigits(a, separator, b);
    BodyDigits(a + [separator] + b);
    BodyDigits(a + b);
    hide Keep, ReadPairs;
  }

  /** The prefix does matter: an x put after a leading zero turns it into a prefix. */
  lemma SeparatorMakesPrefix()
    ensures ClientParse("00AB", 8) == Parsed([0x00, 0xAB])
    ensures ClientParse("0" + "x" + "0AB", 8) == Nothing
  {
    EvenDigits("00AB");
    OddDigits("0" + "x" + "0AB");
  }

  lemma EvenDigits(s: string)
    requires s == "00AB"
    ensures ClientParse(s, 8) == Parsed([0x00, 0xAB])
  {
    assert AllHex(s);
    KeepAll(s, IsHex);
    ReadTwo(s);
    hide Keep, ReadPairs, IsHex;
  }

  lemma OddDigits(s: string)
    requires s == "0x0AB"
    ensures ClientParse(s, 8) == Nothing
  {
    assert s[2..] == "0AB";
    KeepAll("0AB", IsHex);
    hide Keep, ReadPairs, IsHex;
  }

  lemma ReadTwo(digits: string)
    requires digits == "00AB"
    ensures ReadPairs(digits) == [0x00, 0xAB]
  {
    assert Strtol2('0', '0') == 0x00 && Strtol2('A', 'B') == 0xAB;
    hide Strtol2;
    var read := ReadPairs(digits);
    assert read[0] == Strtol2('0', '0') && read[1] == Strtol2('A', 'B');
  }
}
