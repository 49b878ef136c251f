/** The 4-state path between testbench strings and the 32-bit aval/bval chunks of the VPI vector format
    (section 38.15 of IEEE 1800-2017): 0, 1, z and x are the (aval, bval) pairs 00, 10, 01 and 11. */
module FourState {
  import opened UartFormat
  import opened Arithmetic
  import BaudGen

  type Word = w: seq<bool> | |w| == 32 witness seq(32, _ => false)

  datatype Chunk = Chunk(aval: Word, bval: Word)

  const ZERO_WORD: Word := Fill(32, false)
  const ZERO_CHUNK := Chunk(ZERO_WORD, ZERO_WORD)

  // ---- Strings to chunks ----

  function AvalOf(c: char): bool {
    c == '1' || c == 'x'
  }

  function BvalOf(c: char): bool {
    c == 'x' || c == 'z'
  }

  /** Bit k of a string, counted from its right end; zero beyond it. */
  function AvalAt(s: string, k: nat): bool {
    k < |s| && AvalOf(s[|s| - 1 - k])
  }

  function BvalAt(s: string, k: nat): bool {
    k < |s| && BvalOf(s[|s| - 1 - k])
  }

  function PackedChunk(s: string, i: nat): (c: Chunk)
    ensures forall j :: 0 <= j < 32 ==> c.aval[j] == AvalAt(s, 32 * i + j) && c.bval[j] == BvalAt(s, 32 * i + j)
  {
    Chunk(seq(32, j requires 0 <= j < 32 => AvalAt(s, 32 * i + j)),
          seq(32, j requires 0 <= j < 32 => BvalAt(s, 32 * i + j)))
  }

  /** The chunks of a string, least significant first. */
  function Pack(s: string, len: nat): (v: seq<Chunk>)
    ensures |v| == len
  {
    seq(len, i requires 0 <= i < len => PackedChunk(s, i))
  }

  lemma SameChunk(c: Chunk, d: Chunk)
    requires forall j :: 0 <= j < 32 ==> c.aval[j] == d.aval[j] && c.bval[j] == d.bval[j]
    ensures c == d
  {
    assert c.aval == d.aval && c.bval == d.bval;
  }

  /** No character beyond the chunks sets a bit. */
  predicate Fits(s: string, len: nat) {
    forall k: nat :: 32 * len <= k < |s| ==> !AvalAt(s, k) && !BvalAt(s, k)
  }

  /** A chunk with one bit written over zero. */
  function WriteBit(c: Chunk, j: nat, symbol: char): Chunk
    requires j < 32
  {
    match symbol
    case '1' => c.(aval := c.aval[j := true])
    case 'x' => Chunk(c.aval[j := true], c.bval[j := true])
    case 'z' => Chunk(c.aval[j := false], c.bval[j := true])
    case _ => c
  }

  /** The first n bits of the string are in the chunks, and those that are not set no bit. */
  predicate Written(v: seq<Chunk>, s: string, n: nat) {
    && (forall i, j :: 0 <= i < |v| && 0 <= j < 32 ==>
          v[i].aval[j] == (32 * i + j < n && AvalAt(s, 32 * i + j))
          && v[i].bval[j] == (32 * i + j < n && BvalAt(s, 32 * i + j)))
    && (forall k: nat :: 32 * |v| <= k < n ==> !AvalAt(s, k) && !BvalAt(s, k))
  }

  lemma WrittenNext(v: seq<Chunk>, s: string, n: nat, symbol: char)
    requires Written(v, s, n) && n < |s| && symbol == s[|s| - 1 - n]
    ensures n / 32 < |v| ==> Written(v[n / 32 := WriteBit(v[n / 32], n % 32, symbol)], s, n + 1)
    ensures n / 32 >= |v| ==> (Written(v, s, n + 1) <==> !AvalOf(symbol) && !BvalOf(symbol))
    ensures AvalAt(s, n) == AvalOf(symbol) && BvalAt(s, n) == BvalOf(symbol)
  {
    if n / 32 < |v| {
      var c, w := v[n / 32], v[n / 32 := WriteBit(v[n / 32], n % 32, symbol)];
      BitWritten(c, n % 32, symbol, AvalOf(symbol), BvalOf(symbol));
      hide WriteBit, AvalOf, BvalOf;
      assert !c.aval[n % 32] && !c.bval[n % 32];
    } else {
      assert AvalAt(s, n) == AvalOf(symbol) && BvalAt(s, n) == BvalOf(symbol);
      hide AvalOf, BvalOf, AvalAt, BvalAt;
      assert 32 * |v| <= n;
    }
  }

  lemma BitWritten(c: Chunk, j: nat, symbol: char, a: bool, b: bool)
    requires j < 32 && a == AvalOf(symbol) && b == BvalOf(symbol)
    ensures var d := WriteBit(c, j, symbol);
            && (forall k :: 0 <= k < 32 && k != j ==> d.aval[k] == c.aval[k] && d.bval[k] == c.bval[k])
            && (!c.aval[j] && !c.bval[j] ==> d.aval[j] == a && d.bval[j] == b)
  {
  }

  lemma AllWritten(v: seq<Chunk>, s: string)
    requires Written(v, s, |s|)
    ensures v == Pack(s, |v|) && Fits(s, |v|)
  {
    forall i | 0 <= i < |v|
      ensures v[i] == PackedChunk(s, i)
    {
      SameChunk(v[i], PackedChunk(s, i));
    }
  }

  /** String write: bit by bit from the right end of the string. Characters other than 0, 1, x and z only cause a
      warning. None where the source writes past the end of its vector. */
  method WriteString(value: string, len: nat) returns (v: Option<seq<Chunk>>)
    ensures v == if Fits(value, len) then Some(Pack(value, len)) else None
  {
    var chunks := seq(len, _ => ZERO_CHUNK);
    assert Written(chunks, value, 0);
    hide Written, WriteBit, AvalAt, BvalAt;
    for bitIndex := 0 to |value|
      invariant |chunks| == len && Written(chunks, value, bitIndex)
    {
      var index, position := bitIndex / 32, bitIndex % 32;
      var c := value[|value| - 1 - bitIndex];
      WrittenNext(chunks, value, bitIndex, c);
      if c == '1' || c == 'x' || c == 'z' {
        if index >= len {
          assert !Fits(value, len);
          return None;
        }
        chunks := chunks[index := WriteBit(chunks[index], position, c)];
      } else if index < len {
        NothingWritten(chunks, index, position, c);
      }
    }
    AllWritten(chunks, value);
    v := Some(chunks);
  }

  lemma NothingWritten(v: seq<Chunk>, i: nat, j: nat, symbol: char)
    requires i < |v| && j < 32 && symbol != '1' && symbol != 'x' && symbol != 'z'
    ensures v[i := WriteBit(v[i], j, symbol)] == v
  {
  }

  // ---- Chunks to strings ----

  function Symbol(a: bool, b: bool): char {
    if b then (if a then 'x' else 'z') else if a then '1' else '0'
  }

  function SymbolAt(v: seq<Chunk>, k: nat): char
    requires k < 32 * |v|
  {
    Symbol(v[k / 32].aval[k % 32], v[k / 32].bval[k % 32])
  }

  /** All bits, most significant first. */
  function Unpack(v: seq<Chunk>): (s: string)
    ensures |s| == 32 * |v|
  {
    seq(32 * |v|, t requires 0 <= t < 32 * |v| => SymbolAt(v, 32 * |v| - 1 - t))
  }

  /** String read: chunk by chunk and bit by bit from the most significant end. */
  method ReadString(v: seq<Chunk>) returns (s: string)
    ensures s == Unpack(v)
  {
    s := "";
    var i := |v|;
    while i > 0
      invariant 0 <= i <= |v|
      invariant s == Unpack(v)[..32 * (|v| - i)]
    {
      i := i - 1;
      var j := 32;
      while j > 0
        invariant 0 <= j <= 32
        invariant s == Unpack(v)[..32 * (|v| - i) - j]
      {
        j := j - 1;
        var t := 32 * (|v| - i) - j - 1;
        assert 32 * |v| - 1 - t == 32 * i + j;
        assert Unpack(v)[t] == SymbolAt(v, 32 * i + j);
        s := s + [Symbol(v[i].aval[j], v[i].bval[j])];
        assert Unpack(v)[..t + 1] == Unpack(v)[..t] + [Unpack(v)[t]];
      }
    }
    assert Unpack(v)[..32 * |v|] == Unpack(v);
  }

  lemma PackAt(s: string, len: nat, k: nat)
    requires k < 32 * len
    ensures SymbolAt(Pack(s, len), k) == Symbol(AvalAt(s, k), BvalAt(s, k))
  {
    var i, j := k / 32, k % 32;
    assert 32 * i + j == k;
    assert Pack(s, len)[i] == PackedChunk(s, i);
  }

  predicate FourValued(s: string) {
    forall i :: 0 <= i < |s| ==> s[i] in "01xz"
  }

  function Zeros(n: nat): (s: string)
    ensures |s| == n && forall i :: 0 <= i < n ==> s[i] == '0'
  {
    seq(n, _ => '0')
  }

  /** A string at the width of the chunks: padded with zeros on the left, or cut there. */
  function AtWidth(s: string, n: nat): (r: string)
    ensures |r| == n
  {
    if |s| <= n then Zeros(n - |s|) + s else s[|s| - n..]
  }

  /** Round trip: every 4-valued string that fits comes back at the width of the chunks, padded with zeros on the
      left; only leading zeros are ever cut. */
  lemma StringRoundTrip(s: string, len: nat)
    requires FourValued(s) && Fits(s, len)
    ensures Unpack(Pack(s, len)) == AtWidth(s, 32 * len)
    ensures forall i :: 0 <= i < |s| - 32 * len ==> s[i] == '0'
  {
    var u, w := Unpack(Pack(s, len)), AtWidth(s, 32 * len);
    forall t | 0 <= t < 32 * len
      ensures u[t] == w[t]
    {
      var k := 32 * len - 1 - t;
      PackAt(s, len, k);
      if k < |s| {
        assert s[|s| - 1 - k] in "01xz";
      }
    }
    hide Unpack, Pack, AtWidth;
    forall i | 0 <= i < |s| - 32 * len
      ensures s[i] == '0'
    {
      var k: nat := |s| - 1 - i;
      assert !AvalAt(s, k) && !BvalAt(s, k);
      assert s[|s| - 1 - k] == s[i] && s[i] in "01xz";
    }
  }

  // ---- Hexadecimal text ----

  /** The binary text of a hex digit; None where the source throws. */
  function Quartet(c: char): (q: Option<string>)
    ensures q.Some? ==> |q.value| == 4 && FourValued(q.value)
  {
    match c
    case '0' => Some("0000")
    case '1' => Some("0001")
    case '2' => Some("0010")
    case '3' => Some("0011")
    case '4' => Some("0100")
    case '5' => Some("0101")
    case '6' => Some("0110")
    case '7' => Some("0111")
    case '8' => Some("1000")
    case '9' => Some("1001")
    case 'A' => Some("1010")
    case 'a' => Some("1010")
    case 'B' => Some("1011")
    case 'b' => Some("1011")
    case 'C' => Some("1100")
    case 'c' => Some("1100")
    case 'D' => Some("1101")
    case 'd' => Some("1101")
    case 'E' => Some("1110")
    case 'e' => Some("1110")
    case 'F' => Some("1111")
    case 'f' => Some("1111")
    case 'X' => Some("xxxx")
    case 'x' => Some("xxxx")
    case 'Z' => Some("zzzz")
    case 'z' => Some("zzzz")
    case _ => None
  }

  predicate HexText(h: string) {
    forall i :: 0 <= i < |h| ==> Quartet(h[i]).Some?
  }

  function HexToBin(h: string): (b: Option<string>)
    ensures b.Some? <==> HexText(h)
    ensures b.Some? ==> |b.value| == 4 * |h| && FourValued(b.value)
  {
    if h == "" then Some("")
    else
      var head, q := HexToBin(h[..|h| - 1]), Quartet(h[|h| - 1]);
      if head.Some? && q.Some? then Some(head.value + q.value) else None
  }

  /** `hex_to_bin`. */
  method HexToBinImpl(hex: string) returns (bin: Option<string>)
    ensures bin == HexToBin(hex)
  {
    bin := Some("");
    for i := 0 to |hex|
      invariant bin == HexToBin(hex[..i]) && bin.Some?
    {
      assert hex[..i + 1][..i] == hex[..i];
      var mapped := Quartet(hex[i]);
      if mapped.None? {
        assert hex[i] in hex && Quartet(hex[i]).None?;
        bin := None;
        return;
      }
      bin := Some(bin.value + mapped.value);
    }
    assert hex[..|hex|] == hex;
  }

  /** `kNibbleToHex`. */
  function NibbleToHex(n: nat): char
    requires n < 16
  {
    match n
    case 0 => '0'
    case 1 => '1'
    case 2 => '2'
    case 3 => '3'
    case 4 => '4'
    case 5 => '5'
    case 6 => '6'
    case 7 => '7'
    case 8 => '8'
    case 9 => '9'
    case 10 => 'A'
    case 11 => 'B'
    case 12 => 'C'
    case 13 => 'D'
    case 14 => 'E'
    case _ => 'F'
  }

  predicate BinaryChar(c: char) {
    c in "01xXzZ"
  }

  function BitValue(c: char): nat {
    if c == '1' then 1 else 0
  }

  /** The hex digit of four binary characters: exact for two-valued quartets and for xxxx and zzzz, X for every
      other mixture, None where the source throws. */
  function HexChar(q: string): Option<char>
    requires |q| == 4
  {
    if !(forall i :: 0 <= i < 4 ==> BinaryChar(q[i])) then None
    else if forall i :: 0 <= i < 4 ==> q[i] in "01" then
      Some(NibbleToHex(NibbleOf(q)))
    else if q == "zzzz" || q == "ZZZZ" then Some('Z')
    else Some('X')
  }

  /** `quartet_to_hex_char`. */
  method QuartetToHexChar(q: string) returns (c: Option<char>)
    requires |q| == 4
    ensures c == HexChar(q)
  {
    var hasX, hasZ, nibble := false, false, 0;
    for i := 0 to 4
      invariant forall j :: 0 <= j < i ==> BinaryChar(q[j])
      invariant !hasX && !hasZ <==> forall j :: 0 <= j < i ==> q[j] in "01"
      invariant nibble == NibbleOf(q[..i])
    {
      assert q[..i + 1][..i] == q[..i];
      nibble := 2 * nibble % 256;
      match q[i] {
        case '0' =>
        case '1' => nibble := nibble + 1;
        case 'x' => hasX := true;
        case 'X' => hasX := true;
        case 'z' => hasZ := true;
        case 'Z' => hasZ := true;
        case _ =>
          assert !BinaryChar(q[i]);
          return None;
      }
    }
    assert q[..4] == q;
    if !hasX && !hasZ {
      return Some(NibbleToHex(nibble));
    }
    if q == "xxxx" || q == "XXXX" {
      return Some('X');
    }
    if q == "zzzz" || q == "ZZZZ" {
      return Some('Z');
    }
    return Some('X');
  }

  /** The value of a few binary digits. */
  function NibbleOf(q: string): (n: nat)
    requires |q| <= 4
    ensures n < (if |q| == 0 then 1 else if |q| == 1 then 2 else if |q| == 2 then 4 else if |q| == 3 then 8 else 16)
  {
    if q == "" then 0 else 2 * NibbleOf(q[..|q| - 1]) + BitValue(q[|q| - 1])
  }

  /** Hex digits of a binary text, the leftmost one padded with zeros. */
  function RawHex(bin: string): (h: Option<string>)
  {
    if bin == "" then Some("")
    else if |bin| < 4 then
      var c := HexChar(Zeros(4 - |bin|) + bin);
      if c.Some? then Some([c.value]) else None
    else
      var head, c := RawHex(bin[..|bin| - 4]), HexChar(bin[|bin| - 4..]);
      if head.Some? && c.Some? then Some(head.value + [c.value]) else None
  }

  /** Without leading zeros, but never empty. */
  function TrimZeros(h: string): string {
    if h == "" then "0" else if h[0] == '0' then TrimZeros(h[1..]) else h
  }

  function BinToHex(bin: string): Option<string> {
    var raw := RawHex(bin);
    if raw.Some? then Some(TrimZeros(raw.value)) else None
  }

  /** `bin_to_hex_impl`, with trimming as `bin_to_hex` asks for it. */
  method BinToHexImpl(bin: string) returns (hex: Option<string>)
    ensures hex == BinToHex(bin)
  {
    hide HexChar, TrimZeros, RawHex, Zeros;
    RawHexShort(bin);
    if bin == "" {
      TrimEmpty();
      return Some("0");
    }
    var raw := "";
    var remainder := |bin| % 4;
    var idx := remainder;
    if remainder != 0 {
      var c := QuartetToHexChar(Zeros(4 - remainder) + bin[..remainder]);
      if c.None? {
        RawHexFails(bin, remainder);
        return None;
      }
      raw := [c.value];
    }
    while idx < |bin|
      invariant remainder <= idx <= |bin| && (|bin| - idx) % 4 == 0
      invariant RawHex(bin[..idx]) == Some(raw)
    {
      var c := QuartetToHexChar(bin[idx..idx + 4]);
      RawHexSnoc(bin, idx);
      if c.None? {
        RawHexFails(bin, idx + 4);
        return None;
      }
      raw := raw + [c.value];
      idx := idx + 4;
    }
    assert bin[..|bin|] == bin;
    var trimmed := Trim(raw);
    hex := Some(trimmed);
  }

  /** The leftmost, shorter group. */
  lemma RawHexShort(bin: string)
    ensures RawHex(bin[..0]) == Some("")
    ensures var r := |bin| % 4;
            0 < r <= |bin| ==>
              var c := HexChar(Zeros(4 - r) + bin[..r]);
              RawHex(bin[..r]) == if c.Some? then Some([c.value]) else None
  {
  }

  lemma TrimEmpty()
    ensures TrimZeros("") == "0"
  {
  }

  lemma RawHexSnoc(bin: string, idx: nat)
    requires idx + 4 <= |bin|
    ensures RawHex(bin[..idx + 4])
         == var head, c := RawHex(bin[..idx]), HexChar(bin[idx..idx + 4]);
            if head.Some? && c.Some? then Some(head.value + [c.value]) else None
  {
    var b := bin[..idx + 4];
    assert b[..|b| - 4] == bin[..idx] && b[|b| - 4..] == bin[idx..idx + 4];
  }

  /** A part that fails makes the whole fail. */
  lemma {:induction false} RawHexFails(bin: string, idx: nat)
    requires idx <= |bin| && (|bin| - idx) % 4 == 0 && RawHex(bin[..idx]).None?
    ensures RawHex(bin).None?
    decreases |bin|
  {
    if idx == |bin| {
      assert bin[..idx] == bin;
    } else {
      assert bin[..|bin| - 4][..idx] == bin[..idx];
      RawHexFails(bin[..|bin| - 4], idx);
    }
  }

  /** `find_first_not_of` and `substr`. */
  method Trim(hex: string) returns (t: string)
    ensures t == TrimZeros(hex)
  {
    var first := 0;
    while first < |hex| && hex[first] == '0'
      invariant first <= |hex| && TrimZeros(hex[first..]) == TrimZeros(hex)
    {
      assert hex[first..][1..] == hex[first + 1..];
      first := first + 1;
    }
    if first == |hex| {
      return "0";
    }
    t := hex[first..];
  }

  // ---- Hex round trip ----

  function UpperChar(c: char): char {
    match c
    case 'a' => 'A'
    case 'b' => 'B'
    case 'c' => 'C'
    case 'd' => 'D'
    case 'e' => 'E'
    case 'f' => 'F'
    case 'x' => 'X'
    case 'z' => 'Z'
    case _ => c
  }

  function Upper(h: string): (u: string)
    ensures |u| == |h| && forall i :: 0 <= i < |u| ==> u[i] == UpperChar(h[i])
  {
    seq(|h|, i requires 0 <= i < |h| => UpperChar(h[i]))
  }

  lemma NibbleOfFour(q: string)
    requires |q| == 4
    ensures NibbleOf(q) == 8 * BitValue(q[0]) + 4 * BitValue(q[1]) + 2 * BitValue(q[2]) + BitValue(q[3])
  {
    assert q[..3][..2] == q[..2] && q[..2][..1] == q[..1] && q[..1][..0] == "";
    assert NibbleOf(q[..1]) == BitValue(q[0]);
    assert NibbleOf(q[..2]) == 2 * NibbleOf(q[..1]) + BitValue(q[1]);
    assert NibbleOf(q[..3]) == 2 * NibbleOf(q[..2]) + BitValue(q[2]);
  }

  lemma HexCharOfQuartet(c: char)
    requires Quartet(c).Some?
    ensures HexChar(Quartet(c).value) == Some(UpperChar(c))
  {
    hide HexChar, Quartet, UpperChar, NibbleToHex, FourValued;
    if c in "xXzZ" {
      QuartetUnknown();
      HexCharOfUnknown();
    } else {
      QuartetValue(c);
      HexCharOfDigits(Quartet(c).value);
    }
  }

  lemma QuartetUnknown()
    ensures Quartet('x') == Quartet('X') == Some("xxxx") && UpperChar('x') == UpperChar('X') == 'X'
    ensures Quartet('z') == Quartet('Z') == Some("zzzz") && UpperChar('z') == UpperChar('Z') == 'Z'
  {
  }

  /** The digit's binary text has the digit's value. */
  predicate QuartetHolds(c: char) {
    Quartet(c).Some? &&
    var q := Quartet(c).value;
    q[0] in "01" && q[1] in "01" && q[2] in "01" && q[3] in "01"
    && NibbleToHex(8 * BitValue(q[0]) + 4 * BitValue(q[1]) + 2 * BitValue(q[2]) + BitValue(q[3])) == UpperChar(c)
  }

  lemma LowQuartets(c: char)
    requires Quartet(c).Some? && c < '5'
    ensures QuartetHolds(c)
  {
  }

  lemma DigitQuartets(c: char)
    requires Quartet(c).Some? && '5' <= c < 'A'
    ensures QuartetHolds(c)
  {
  }

  lemma LetterQuartets(c: char)
    requires Quartet(c).Some? && c >= 'A' && c !in "xXzZ"
    ensures QuartetHolds(c)
  {
  }

  lemma QuartetValue(c: char)
    requires Quartet(c).Some? && c !in "xXzZ"
    ensures QuartetHolds(c)
  {
    hide QuartetHolds, Quartet;
    if c < '5' {
      LowQuartets(c);
    } else if c < 'A' {
      DigitQuartets(c);
    } else {
      LetterQuartets(c);
    }
  }

  lemma HexCharOfDigits(q: string)
    requires |q| == 4 && forall i :: 0 <= i < 4 ==> q[i] in "01"
    ensures HexChar(q)
         == Some(NibbleToHex(8 * BitValue(q[0]) + 4 * BitValue(q[1]) + 2 * BitValue(q[2]) + BitValue(q[3])))
  {
    NibbleOfFour(q);
    hide NibbleOf;
  }

  lemma HexCharOfUnknown()
    ensures HexChar("xxxx") == Some('X') && HexChar("zzzz") == Some('Z')
  {
    assert "xxxx"[0] !in "01" && "zzzz"[0] !in "01";
  }

  lemma {:induction false} RawHexOfBin(h: string)
    requires HexText(h)
    ensures RawHex(HexToBin(h).value) == Some(Upper(h))
  {
    hide Quartet, HexChar, UpperChar, FourValued;
    if h != "" {
      var t, c := h[..|h| - 1], h[|h| - 1];
      RawHexOfBin(t);
      HexCharOfQuartet(c);
      var head, q := HexToBin(t).value, Quartet(c).value;
      var b := head + q;
      assert b[..|b| - 4] == head && b[|b| - 4..] == q;
      assert Upper(h) == Upper(t) + [UpperChar(c)];
    } else {
      assert Upper("") == "";
    }
  }

  lemma HexCharOfZeros()
    ensures HexChar("0000") == Some('0')
  {
    HexCharOfDigits("0000");
  }

  /** Whole quartets of leading zeros become leading zero digits. */
  lemma {:induction false} RawHexPadded(m: nat, bin: string)
    requires |bin| % 4 == 0 && RawHex(bin).Some?
    ensures RawHex(Zeros(4 * m) + bin) == Some(Zeros(m) + RawHex(bin).value)
    decreases m + |bin|
  {
    hide HexChar;
    if bin != "" {
      var head, q := bin[..|bin| - 4], bin[|bin| - 4..];
      RawHexPadded(m, head);
      RawHexLast(Zeros(4 * m) + head, q);
      RawHexLast(head, q);
      assert head + q == bin && (Zeros(4 * m) + head) + q == Zeros(4 * m) + bin;
      hide RawHex;
      var r := RawHex(head).value;
      assert Zeros(m) + (r + [HexChar(q).value]) == (Zeros(m) + r) + [HexChar(q).value];
    } else {
      RawHexOfZeros(m);
      hide RawHex;
      assert Zeros(4 * m) + "" == Zeros(4 * m) && Zeros(m) + "" == Zeros(m);
    }
  }

  lemma RawHexLast(head: string, q: string)
    requires |q| == 4
    ensures RawHex(head + q) == var h, c := RawHex(head), HexChar(q);
                                if h.Some? && c.Some? then Some(h.value + [c.value]) else None
  {
    var b := head + q;
    assert b[..|b| - 4] == head && b[|b| - 4..] == q;
  }

  lemma {:induction false} RawHexOfZeros(m: nat)
    ensures RawHex(Zeros(4 * m)) == Some(Zeros(m)) && RawHex("") == Some("")
  {
    if m > 0 {
      RawHexOfZeros(m - 1);
      RawHexLast(Zeros(4 * (m - 1)), "0000");
      HexCharOfZeros();
      hide HexChar, RawHex;
      assert Zeros(4 * (m - 1)) + "0000" == Zeros(4 * m);
      assert Zeros(m - 1) + "0" == Zeros(m);
    } else {
      assert Zeros(0) == "";
    }
  }

  lemma {:induction false} TrimPadded(m: nat, h: string)
    ensures TrimZeros(Zeros(m) + h) == TrimZeros(h)
  {
    if m > 0 {
      assert (Zeros(m) + h)[1..] == Zeros(m - 1) + h;
      TrimPadded(m - 1, h);
    } else {
      assert Zeros(0) + h == h;
    }
  }

  lemma {:induction false} HexToBinSplit(a: string, b: string)
    requires HexText(a) && HexText(b)
    ensures HexText(a + b) && HexToBin(a + b).value == HexToBin(a).value + HexToBin(b).value
    decreases |b|
  {
    hide Quartet, FourValued;
    if b == "" {
      assert a + b == a;
    } else {
      var c := b[..|b| - 1];
      HexToBinSplit(a, c);
      assert (a + b)[..|a + b| - 1] == a + c;
      assert HexToBin(a).value + (HexToBin(c).value + Quartet(b[|b| - 1]).value)
          == (HexToBin(a).value + HexToBin(c).value) + Quartet(b[|b| - 1]).value;
    }
  }

  lemma ZeroQuartet(c: char)
    requires Quartet(c) == Some("0000")
    ensures UpperChar(c) == '0'
  {
  }

  /** Hex text whose binary text is all zeros is all zeros. */
  lemma {:induction false} ZerosFromBin(h: string)
    requires HexText(h) && HexToBin(h).value == Zeros(4 * |h|)
    ensures Upper(h) == Zeros(|h|)
  {
    if h != "" {
      hide Quartet, UpperChar, FourValued;
      var t, c := h[..|h| - 1], h[|h| - 1];
      var b, q := HexToBin(h).value, Quartet(c).value;
      assert b == HexToBin(t).value + q;
      assert HexToBin(t).value == b[..4 * |t|] == Zeros(4 * |t|);
      assert q == b[4 * |t|..] == "0000";
      ZerosFromBin(t);
      ZeroQuartet(c);
      assert Upper(h) == Upper(t) + "0";
    }
  }

  /** Writing hex text and reading hex text back gives it in upper case without leading zeros, also where leading
      zeros go beyond the net. */
  lemma HexRoundTrip(h: string, len: nat)
    requires HexText(h) && Fits(HexToBin(h).value, len)
    ensures BinToHex(Unpack(Pack(HexToBin(h).value, len))) == Some(TrimZeros(Upper(h)))
  {
    hide RawHex, HexToBin, TrimZeros, Unpack, Pack, FourValued, HexText, Quartet, Fits;
    var b := HexToBin(h).value;
    StringRoundTrip(b, len);
    if |h| <= 8 * len {
      var m := 8 * len - |h|;
      assert 32 * len - |b| == 4 * m && |b| % 4 == 0;
      RawHexOfBin(h);
      RawHexPadded(m, b);
      TrimPadded(m, Upper(h));
      hide Upper, Zeros;
    } else {
      CutHex(h, |h| - 8 * len);
    }
  }

  lemma Halves(h: string, m: nat)
    requires m <= |h|
    ensures h == h[..m] + h[m..]
  {
  }

  /** Leading zero digits may be cut. */
  lemma CutHex(h: string, m: nat)
    requires HexText(h) && m <= |h| && forall i :: 0 <= i < 4 * m ==> HexToBin(h).value[i] == '0'
    ensures BinToHex(HexToBin(h).value[4 * m..]) == Some(TrimZeros(Upper(h)))
  {
    var a, d := h[..m], h[m..];
    Halves(h, m);
    TextHalves(a, d);
    hide RawHex, TrimZeros, FourValued, HexToBin, HexText, Upper;
    HexToBinSplit(a, d);
    var p, q := HexToBin(a).value, HexToBin(d).value;
    ZeroPart(p, q, 4 * m);
    ZerosFromBin(a);
    RawHexOfBin(d);
    UpperHalves(a, d);
    TrimPadded(m, Upper(d));
  }

  lemma TextHalves(a: string, d: string)
    requires HexText(a + d)
    ensures HexText(a) && HexText(d)
  {
    hide Quartet;
    forall i | 0 <= i < |a|
      ensures Quartet(a[i]).Some?
    {
      assert (a + d)[i] == a[i];
    }
    forall i | 0 <= i < |d|
      ensures Quartet(d[i]).Some?
    {
      assert (a + d)[|a| + i] == d[i];
    }
  }

  lemma ZeroPart(p: string, q: string, n: nat)
    requires |p| == n && forall i :: 0 <= i < n ==> (p + q)[i] == '0'
    ensures p == Zeros(n) && (p + q)[n..] == q
  {
    forall i | 0 <= i < n
      ensures p[i] == '0'
    {
      assert (p + q)[i] == p[i];
    }
  }

  lemma UpperHalves(a: string, d: string)
    ensures Upper(a + d) == Upper(a) + Upper(d)
  {
    hide UpperChar;
  }

  // ---- The nibble table ----

  /** `hex_char_to_aval_bval_nibble`: (aval, bval) of a hex digit; None where the source throws. */
  function NibblePair(c: char): Option<(nat, nat)> {
    match c
    case '0' => Some((0, 0))
    case '1' => Some((1, 0))
    case '2' => Some((2, 0))
    case '3' => Some((3, 0))
    case '4' => Some((4, 0))
    case '5' => Some((5, 0))
    case '6' => Some((6, 0))
    case '7' => Some((7, 0))
    case '8' => Some((8, 0))
    case '9' => Some((9, 0))
    case 'A' => Some((10, 0))
    case 'a' => Some((10, 0))
    case 'B' => Some((11, 0))
    case 'b' => Some((11, 0))
    case 'C' => Some((12, 0))
    case 'c' => Some((12, 0))
    case 'D' => Some((13, 0))
    case 'd' => Some((13, 0))
    case 'E' => Some((14, 0))
    case 'e' => Some((14, 0))
    case 'F' => Some((15, 0))
    case 'f' => Some((15, 0))
    case 'X' => Some((15, 15))
    case 'x' => Some((15, 15))
    case 'Z' => Some((0, 15))
    case 'z' => Some((0, 15))
    case _ => None
  }

  /** The value of four flags, the first one most significant. */
  function FlagsValue(a: bool, b: bool, c: bool, d: bool): nat {
    (if a then 8 else 0) + (if b then 4 else 0) + (if c then 2 else 0) + if d then 1 else 0
  }

  /** The nibble pair of a quartet. */
  function PairOf(q: string): (nat, nat)
    requires |q| == 4
  {
    (FlagsValue(AvalOf(q[0]), AvalOf(q[1]), AvalOf(q[2]), AvalOf(q[3])),
     FlagsValue(BvalOf(q[0]), BvalOf(q[1]), BvalOf(q[2]), BvalOf(q[3])))
  }

  lemma LowerTable(c: char)
    requires c < 'A'
    ensures NibblePair(c) == if Quartet(c).Some? then Some(PairOf(Quartet(c).value)) else None
  {
  }

  lemma UpperTable(c: char)
    requires 'A' <= c < 'a'
    ensures NibblePair(c) == if Quartet(c).Some? then Some(PairOf(Quartet(c).value)) else None
  {
  }

  lemma LetterTable(c: char)
    requires 'a' <= c
    ensures NibblePair(c) == if Quartet(c).Some? then Some(PairOf(Quartet(c).value)) else None
  {
  }

  /** The table is exactly the packing of the digit's binary text, and it accepts the same digits. */
  lemma NibbleTableAgrees(c: char)
    ensures NibblePair(c).Some? <==> Quartet(c).Some?
    ensures NibblePair(c).Some? ==>
              var q := Quartet(c).value;
              NibblePair(c).value == (FlagsValue(AvalAt(q, 3), AvalAt(q, 2), AvalAt(q, 1), AvalAt(q, 0)),
                                      FlagsValue(BvalAt(q, 3), BvalAt(q, 2), BvalAt(q, 1), BvalAt(q, 0)))
  {
    if c < 'A' {
      LowerTable(c);
    } else if c < 'a' {
      UpperTable(c);
    } else {
      LetterTable(c);
    }
    hide NibblePair, Quartet, FlagsValue;
    if Quartet(c).Some? {
      QuartetBits(Quartet(c).value);
      hide AvalAt, BvalAt;
    }
  }

  lemma QuartetBits(q: string)
    requires |q| == 4
    ensures AvalAt(q, 3) == AvalOf(q[0]) && AvalAt(q, 2) == AvalOf(q[1])
    ensures AvalAt(q, 1) == AvalOf(q[2]) && AvalAt(q, 0) == AvalOf(q[3])
    ensures BvalAt(q, 3) == BvalOf(q[0]) && BvalAt(q, 2) == BvalOf(q[1])
    ensures BvalAt(q, 1) == BvalOf(q[2]) && BvalAt(q, 0) == BvalOf(q[3])
  {
  }

  // ---- Numbers ----

  const TWO_TO_32: nat := 0x1_0000_0000

  function BitsOf(n: nat, k: nat): (s: seq<bool>)
    ensures |s| == k
  {
    if k == 0 then [] else [n % 2 == 1] + BitsOf(n / 2, k - 1)
  }

  function ValueOf(s: seq<bool>): nat {
    if s == [] then 0 else (if s[0] then 1 else 0) + 2 * ValueOf(s[1..])
  }

  lemma {:induction false} BitsRoundTrip(n: nat, k: nat)
    requires n < Pow2(k)
    ensures ValueOf(BitsOf(n, k)) == n
  {
    if k > 0 {
      BitsRoundTrip(n / 2, k - 1);
      assert BitsOf(n, k)[1..] == BitsOf(n / 2, k - 1);
    }
  }

  /** Numeric write: 32 bits a chunk, least significant first, no x or z. */
  function NumberChunks(value: nat, len: nat): (v: seq<Chunk>)
    ensures |v| == len
  {
    if len == 0 then []
    else [Chunk(BitsOf(value % TWO_TO_32, 32), ZERO_WORD)] + NumberChunks(value / TWO_TO_32, len - 1)
  }

  method WriteNumber(value: nat, len: nat) returns (v: seq<Chunk>)
    ensures v == NumberChunks(value, len)
  {
    v := [];
    var temp: nat := value;
    for i := 0 to len
      invariant v + NumberChunks(temp, len - i) == NumberChunks(value, len)
    {
      ghost var rest := NumberChunks(temp, len - i);
      var chunk := Chunk(BitsOf(temp % TWO_TO_32, 32), ZERO_WORD);
      temp := temp / TWO_TO_32;
      assert rest == [chunk] + NumberChunks(temp, len - i - 1);
      assert v + rest == (v + [chunk]) + NumberChunks(temp, len - i - 1);
      v := v + [chunk];
    }
  }

  /** The first number taken from a freshly read vector: its two most significant chunks. */
  function FirstNum(v: seq<Chunk>): nat {
    if |v| == 0 then 0
    else if |v| == 1 then ValueOf(v[0].aval)
    else ValueOf(v[|v| - 1].aval) * TWO_TO_32 + ValueOf(v[|v| - 2].aval)
  }

  /** `AwaitRead`: at most two numeric chunks are kept, most significant first. */
  class AwaitRead {
    var uintValues: seq<nat>
    var strValue: string

    constructor ()
      ensures uintValues == [] && strValue == ""
    {
      uintValues, strValue := [], "";
    }

    method Resume(v: seq<Chunk>)
      modifies this
      ensures strValue == Unpack(v)
      ensures uintValues == old(uintValues) + KeptChunks(v)
    {
      var i := |v|;
      while i > 0
        invariant 0 <= i <= |v|
        invariant uintValues == old(uintValues) + KeptDown(v, i)
      {
        i := i - 1;
        if |v| - i <= 2 {
          uintValues := uintValues + [ValueOf(v[i].aval)];
        }
      }
      strValue := ReadString(v);
    }

    /** Takes the values off; 0 with a warning when there are none. */
    method GetNum() returns (n: nat)
      modifies `uintValues
      ensures old(uintValues) == [] ==> n == 0 && uintValues == []
      ensures |old(uintValues)| == 1 ==> n == old(uintValues)[0] && uintValues == []
      ensures |old(uintValues)| >= 2 ==>
                var k := |old(uintValues)|;
                n == old(uintValues)[k - 2] * TWO_TO_32 + old(uintValues)[k - 1] && uintValues == old(uintValues)[..k - 2]
    {
      var k := |uintValues|;
      if k == 1 {
        n := uintValues[0];
        uintValues := [];
      } else if k >= 2 {
        var low, high := uintValues[k - 1], uintValues[k - 2];
        uintValues := uintValues[..k - 2];
        n := high * TWO_TO_32 + low;
      } else {
        n := 0;
      }
    }
  }

  /** The chunks at or above i that a read keeps. */
  function KeptDown(v: seq<Chunk>, i: nat): seq<nat>
    requires i <= |v|
    decreases |v| - i
  {
    if i == |v| then []
    else if |v| - i <= 2 then KeptDown(v, i + 1) + [ValueOf(v[i].aval)]
    else KeptDown(v, i + 1)
  }

  function KeptChunks(v: seq<Chunk>): seq<nat> {
    KeptDown(v, 0)
  }

  /** `AwaitChange`: all numeric chunks are kept, least significant first, replacing earlier ones. */
  class AwaitChange {
    var uintValues: seq<nat>
    var strValue: string

    constructor ()
      ensures uintValues == [] && strValue == ""
    {
      uintValues, strValue := [], "";
    }

    method Resume(v: seq<Chunk>)
      modifies this
      ensures strValue == Unpack(v)
      ensures |uintValues| == |v| && forall i :: 0 <= i < |v| ==> uintValues[i] == ValueOf(v[i].aval)
    {
      uintValues := [];
      for i := 0 to |v|
        invariant |uintValues| == i && forall j :: 0 <= j < i ==> uintValues[j] == ValueOf(v[j].aval)
      {
        uintValues := uintValues + [ValueOf(v[i].aval)];
      }
      strValue := ReadString(v);
    }

    method GetNum() returns (n: nat)
      modifies `uintValues
      ensures old(uintValues) == [] ==> n == 0 && uintValues == []
      ensures |old(uintValues)| == 1 ==> n == old(uintValues)[0] && uintValues == []
      ensures |old(uintValues)| >= 2 ==>
                var k := |old(uintValues)|;
                n == old(uintValues)[k - 1] * TWO_TO_32 + old(uintValues)[k - 2] && uintValues == old(uintValues)[..k - 2]
    {
      var k := |uintValues|;
      if k == 1 {
        n := uintValues[0];
        uintValues := [];
      } else if k >= 2 {
        var high, low := uintValues[k - 1], uintValues[k - 2];
        uintValues := uintValues[..k - 2];
        n := high * TWO_TO_32 + low;
      } else {
        n := 0;
      }
    }
  }

  lemma {:induction false} KeptShape(v: seq<Chunk>, i: nat)
    requires i <= |v|
    ensures KeptDown(v, i) == if |v| - i == 0 then []
                              else if |v| - i == 1 then [ValueOf(v[|v| - 1].aval)]
                              else [ValueOf(v[|v| - 1].aval), ValueOf(v[|v| - 2].aval)]
    decreases |v| - i
  {
    if i < |v| {
      KeptShape(v, i + 1);
    }
  }

  /** The two awaiters give the same first number at every width. */
  method FirstNumAgrees(v: seq<Chunk>) returns (a: nat, b: nat)
    ensures a == b == FirstNum(v)
  {
    KeptShape(v, 0);
    var read := new AwaitRead();
    read.Resume(v);
    a := read.GetNum();
    var change := new AwaitChange();
    change.Resume(v);
    b := change.GetNum();
  }

  lemma WordValue(n: nat)
    requires n < TWO_TO_32
    ensures ValueOf(BitsOf(n, 32)) == n
  {
    Pow2Of32();
    BitsRoundTrip(n, 32);
  }

  function Digit(value: nat, i: nat): nat {
    if i == 0 then value % TWO_TO_32 else Digit(value / TWO_TO_32, i - 1)
  }

  lemma {:induction false} DigitZero(i: nat)
    ensures Digit(0, i) == 0
  {
    if i > 0 {
      DigitZero(i - 1);
    }
  }

  lemma {:induction false} ChunkDigit(value: nat, len: nat, i: nat)
    requires i < len
    ensures ValueOf(NumberChunks(value, len)[i].aval) == Digit(value, i)
  {
    if i == 0 {
      WordValue(value % TWO_TO_32);
    } else {
      ChunkDigit(value / TWO_TO_32, len - 1, i - 1);
    }
  }

  lemma ChunkValue(value: nat, len: nat, i: nat)
    requires i < len && value < TWO_TO_32 * TWO_TO_32
    ensures ValueOf(NumberChunks(value, len)[i].aval)
         == if i == 0 then value % TWO_TO_32 else if i == 1 then value / TWO_TO_32 else 0
  {
    ChunkDigit(value, len, i);
    if i >= 1 {
      var high := value / TWO_TO_32;
      assert high < TWO_TO_32;
      if i >= 2 {
        assert high / TWO_TO_32 == 0;
        DigitZero(i - 2);
      }
    }
  }

  // ---- Nets narrower than their chunks ----

  /** The k lowest bits. */
  function Low(s: seq<bool>, k: nat): (r: seq<bool>)
    ensures |r| == |s|
  {
    if s == [] then [] else [k > 0 && s[0]] + Low(s[1..], if k > 0 then k - 1 else 0)
  }

  /** How many bits of chunk i a net of the given width holds. */
  function KeptBits(width: nat, i: nat): (k: nat)
    ensures k <= 32
  {
    if width <= 32 * i then 0 else if width >= 32 * i + 32 then 32 else width - 32 * i
  }

  /** What a net keeps of the chunks written to it. */
  function Net(v: seq<Chunk>, width: nat): (r: seq<Chunk>)
    ensures |r| == |v|
  {
    seq(|v|, i requires 0 <= i < |v| => Chunk(Low(v[i].aval, KeptBits(width, i)), Low(v[i].bval, KeptBits(width, i))))
  }

  function ChunksOf(width: nat): nat {
    (width + 31) / 32
  }

  lemma {:induction false} LowValue(n: nat, m: nat, k: nat)
    requires k <= m
    ensures ValueOf(Low(BitsOf(n, m), k)) == n % Pow2(k)
  {
    if m > 0 {
      var s := BitsOf(n, m);
      assert s[1..] == BitsOf(n / 2, m - 1);
      var t := Low(s, k);
      assert t[1..] == Low(s[1..], if k > 0 then k - 1 else 0);
      LowValue(n / 2, m - 1, if k > 0 then k - 1 else 0);
      if k > 0 {
        HalfMod(n, Pow2(k - 1));
      }
    }
  }

  lemma HalfMod(n: nat, p: nat)
    requires p >= 1
    ensures n % (2 * p) == n % 2 + 2 * (n / 2 % p)
  {
    var h := n / 2;
    var q, r := h / p, h % p;
    assert h == p * q + r && n == 2 * h + n % 2;
    assert n == (2 * p) * q + (2 * r + n % 2);
    BaudGen.DivModUnique(n, 2 * p, q, 2 * r + n % 2);
  }

  lemma {:induction false} Pow2Split(a: nat, b: nat)
    ensures Pow2(a + b) == Pow2(a) * Pow2(b)
  {
    if a > 0 {
      Pow2Split(a - 1, b);
      assert 2 * Pow2(a - 1) * Pow2(b) == 2 * (Pow2(a - 1) * Pow2(b));
    }
  }

  lemma Regroup(n: nat, a: nat, b: nat, m: nat, q: nat, r: nat, s: nat, t: nat)
    requires m == a * b && n == a * q + r && q == b * s + t
    ensures n == m * s + (a * t + r)
  {
    assert a * (b * s + t) == a * (b * s) + a * t;
    assert a * (b * s) == (a * b) * s;
  }

  lemma BelowProduct(a: nat, b: nat, m: nat, t: nat, r: nat)
    requires m == a * b && t < b && r < a
    ensures a * t + r < m
  {
    MulMonotone(t + 1, b, a);
    assert (t + 1) * a == a * t + a;
  }

  /** Splitting off the low factor of a modulus. */
  lemma ModProduct(n: nat, a: nat, b: nat, m: nat)
    requires a >= 1 && b >= 1 && m == a * b
    ensures m >= 1 && n % m == a * (n / a % b) + n % a
  {
    var q, r := n / a, n % a;
    var s, t := q / b, q % b;
    BelowProduct(a, b, m, t, r);
    Regroup(n, a, b, m, q, r, s, t);
    BaudGen.DivModUnique(n, m, s, a * t + r);
  }

  lemma ModMod(n: nat, a: nat, b: nat, m: nat)
    requires a >= 1 && b >= 1 && m == a * b
    ensures m >= 1 && n % m % a == n % a
  {
    ModProduct(n, a, b, m);
    BaudGen.DivModUnique(n % m, a, n / a % b, n % a);
  }

  lemma NetDigit(value: nat, width: nat, len: nat, i: nat)
    requires i < len
    ensures ValueOf(Net(NumberChunks(value, len), width)[i].aval) == Digit(value, i) % Pow2(KeptBits(width, i))
  {
    ChunkBits(value, len, i);
    hide ValueOf, Low, BitsOf, Digit;
    LowValue(Digit(value, i), 32, KeptBits(width, i));
  }

  lemma {:induction false} ChunkBits(value: nat, len: nat, i: nat)
    requires i < len
    ensures NumberChunks(value, len)[i].aval == BitsOf(Digit(value, i), 32)
  {
    hide BitsOf;
    if i > 0 {
      ChunkBits(value / TWO_TO_32, len - 1, i - 1);
    }
  }

  /** A 64-bit number written to a net and read back: itself modulo the width up to 64 bits, its high half up to
      96, and 0 beyond. */
  lemma NumberRoundTrip(value: nat, width: nat)
    requires value < TWO_TO_32 * TWO_TO_32 && width >= 1
    ensures FirstNum(Net(NumberChunks(value, ChunksOf(width)), width))
         == if width <= 64 then value % Pow2(width) else if width <= 96 then value / TWO_TO_32 else 0
  {
    var len := ChunksOf(width);
    hide ValueOf, Low, BitsOf, Net, NumberChunks, Digit, Pow2;
    NetDigit(value, width, len, len - 1);
    Pow2Of32();
    if len == 1 {
      NarrowNet(value, width);
    } else {
      NetDigit(value, width, len, len - 2);
      if len == 2 {
        MediumNet(value, width);
      } else {
        WideDigits(value, len);
        assert KeptBits(width, len - 2) == 32;
        ModZero(KeptBits(width, len - 1));
      }
    }
  }

  lemma ModZero(k: nat)
    ensures 0 % Pow2(k) == 0
  {
    BaudGen.DivModUnique(0, Pow2(k), 0, 0);
  }

  lemma NarrowNet(value: nat, width: nat)
    requires 1 <= width <= 32
    ensures Digit(value, 0) % Pow2(KeptBits(width, 0)) == value % Pow2(width)
  {
    Pow2Of32();
    Pow2Split(width, 32 - width);
    ModMod(value, Pow2(width), Pow2(32 - width), TWO_TO_32);
  }

  lemma MediumNet(value: nat, width: nat)
    requires 33 <= width <= 64
    ensures Digit(value, 1) % Pow2(KeptBits(width, 1)) * TWO_TO_32 + Digit(value, 0) % Pow2(KeptBits(width, 0))
         == value % Pow2(width)
  {
    Pow2Of32();
    Pow2Split(32, width - 32);
    ModProduct(value, TWO_TO_32, Pow2(width - 32), Pow2(width));
    NarrowNet(value / TWO_TO_32, width - 32);
    assert Digit(value, 1) == Digit(value / TWO_TO_32, 0);
    assert KeptBits(width, 1) == KeptBits(width - 32, 0) && KeptBits(width, 0) == 32;
    NarrowNet(value, 32);
  }

  lemma WideDigits(value: nat, len: nat)
    requires value < TWO_TO_32 * TWO_TO_32 && len >= 3
    ensures Digit(value, len - 1) == 0
    ensures Digit(value, len - 2) % TWO_TO_32 == if len == 3 then value / TWO_TO_32 else 0
  {
    ChunkValue(value, len, len - 1);
    ChunkValue(value, len, len - 2);
    ChunkDigit(value, len, len - 1);
    ChunkDigit(value, len, len - 2);
  }

  lemma {:induction false} LowAt(s: seq<bool>, k: nat, j: nat)
    requires j < |s|
    ensures Low(s, k)[j] == (j < k && s[j])
  {
    if j > 0 {
      LowAt(s[1..], if k > 0 then k - 1 else 0, j - 1);
    }
  }

  lemma NetSymbol(v: seq<Chunk>, width: nat, k: nat)
    requires k < 32 * |v|
    ensures SymbolAt(Net(v, width), k) == if k < width then SymbolAt(v, k) else '0'
  {
    var i, j := k / 32, k % 32;
    LowAt(v[i].aval, KeptBits(width, i), j);
    LowAt(v[i].bval, KeptBits(width, i), j);
    hide Low;
  }

  /** Any string written to a net comes back at the width of the net, in the text of its whole chunks: padded with
      zeros, and cut on the left where it is longer than the net. */
  lemma StringOnNet(s: string, width: nat)
    requires FourValued(s)
    ensures Unpack(Net(Pack(s, ChunksOf(width)), width)) == Zeros(32 * ChunksOf(width) - width) + AtWidth(s, width)
  {
    var v := Net(Pack(s, ChunksOf(width)), width);
    assert |v| == ChunksOf(width);
    hide Net, Pack, SymbolAt, AtWidth, Unpack, Zeros, FourValued;
    forall k: nat | k < 32 * |v|
      ensures SymbolAt(v, k) == if k < width && k < |s| then s[|s| - 1 - k] else '0'
    {
      StringOnNetAt(s, width, k);
    }
    TextOf(v, s, width, 32 * |v| - width);
  }

  lemma TextOf(v: seq<Chunk>, s: string, width: nat, pad: nat)
    requires pad + width == 32 * |v|
    requires forall k: nat :: k < 32 * |v| ==> SymbolAt(v, k) == if k < width && k < |s| then s[|s| - 1 - k] else '0'
    ensures Unpack(v) == Zeros(pad) + AtWidth(s, width)
  {
    hide SymbolAt, AtWidth, Zeros, Unpack;
    var u, w := Unpack(v), Zeros(pad) + AtWidth(s, width);
    forall t | 0 <= t < |u|
      ensures u[t] == w[t]
    {
      UnpackAt(v, t);
      PaddedAt(s, width, pad, t);
    }
  }

  lemma UnpackAt(v: seq<Chunk>, t: nat)
    requires t < 32 * |v|
    ensures Unpack(v)[t] == SymbolAt(v, 32 * |v| - 1 - t)
  {
    hide SymbolAt;
  }

  lemma PaddedAt(s: string, width: nat, pad: nat, t: nat)
    requires t < pad + width
    ensures var k := pad + width - 1 - t;
            (Zeros(pad) + AtWidth(s, width))[t] == if k < width && k < |s| then s[|s| - 1 - k] else '0'
  {
  }

  lemma StringOnNetAt(s: string, width: nat, k: nat)
    requires FourValued(s) && k < 32 * ChunksOf(width)
    ensures SymbolAt(Net(Pack(s, ChunksOf(width)), width), k)
         == if k < width && k < |s| then s[|s| - 1 - k] else '0'
  {
    hide Pack, Net, SymbolAt;
    NetSymbol(Pack(s, ChunksOf(width)), width, k);
    PackAt(s, ChunksOf(width), k);
    if k < |s| {
      assert s[|s| - 1 - k] in "01xz";
    }
  }

  // ---- What the text means ----

  /** Trimming removes exactly the k leading zeros, and leaves one of nothing but zeros. */
  lemma {:induction false} TrimMeans(h: string, k: nat)
    requires k <= |h| && (forall i :: 0 <= i < k ==> h[i] == '0') && (k < |h| ==> h[k] != '0')
    ensures TrimZeros(h) == if k == |h| then "0" else h[k..]
    decreases k
  {
    if k > 0 {
      var t := h[1..];
      assert forall i :: 0 <= i < k - 1 ==> t[i] == h[i + 1];
      assert k < |h| ==> t[k - 1] == h[k] && t[k - 1..] == h[k..];
      TrimMeans(t, k - 1);
    } else {
      assert h[0..] == h;
    }
  }

  /** A hex digit other than X stands for its binary text and no other; a mixture of states always becomes X. */
  lemma HexCharFaithful(q: string)
    requires |q| == 4 && forall i :: 0 <= i < 4 ==> BinaryChar(q[i])
    ensures var c := HexChar(q);
            && c.Some?
            && (c.value != 'X' && c.value != 'Z' ==> Quartet(c.value) == Some(q))
            && (c.value == 'Z' <==> q == "zzzz" || q == "ZZZZ")
            && (c.value == 'X' <==> !(q == "zzzz" || q == "ZZZZ") && exists i :: 0 <= i < 4 && q[i] !in "01")
  {
    if forall i :: 0 <= i < 4 ==> q[i] in "01" {
      HexCharOfDigits(q);
      assert q == [q[0], q[1], q[2], q[3]];
      hide HexChar;
      DigitText(q[0] == '1', q[1] == '1', q[2] == '1', q[3] == '1');
      hide Quartet, NibbleToHex, FourValued;
      assert q[0] == (if q[0] == '1' then '1' else '0') && q[1] == (if q[1] == '1' then '1' else '0');
      assert q[2] == (if q[2] == '1' then '1' else '0') && q[3] == (if q[3] == '1' then '1' else '0');
    }
  }

  function BitChar(b: bool): char {
    if b then '1' else '0'
  }

  lemma DigitText(a: bool, b: bool, c: bool, d: bool)
    ensures var digit := NibbleToHex(FlagsValue(a, b, c, d));
            digit != 'X' && digit != 'Z' && Quartet(digit) == Some([BitChar(a), BitChar(b), BitChar(c), BitChar(d)])
  {
  }

  /** The value of binary text; x and z count as 0. */
  function TextValue(s: string): nat {
    if s == "" then 0 else 2 * TextValue(s[..|s| - 1]) + BitValue(s[|s| - 1])
  }

  lemma {:induction false} TextJoin(a: string, b: string)
    ensures TextValue(a + b) == TextValue(a) * Pow2(|b|) + TextValue(b)
    decreases |b|
  {
    if b == "" {
      assert a + b == a;
    } else {
      var c := b[..|b| - 1];
      TextJoin(a, c);
      assert (a + b)[..|a + b| - 1] == a + c;
      assert 2 * (TextValue(a) * Pow2(|c|)) == TextValue(a) * (2 * Pow2(|c|));
    }
  }

  /** The text of some bits, most significant first. */
  function BitsText(s: seq<bool>): (t: string)
    ensures |t| == |s| && forall i :: 0 <= i < |t| ==> t[i] == BitChar(s[|s| - 1 - i])
  {
    seq(|s|, i requires 0 <= i < |s| => BitChar(s[|s| - 1 - i]))
  }

  lemma {:induction false} BitsTextValue(s: seq<bool>)
    ensures TextValue(BitsText(s)) == ValueOf(s)
  {
    if s != [] {
      BitsTextValue(s[1..]);
      assert BitsText(s) == BitsText(s[1..]) + [BitChar(s[0])];
    } else {
      assert BitsText(s) == "";
    }
  }

  /** The chunks of a number read as text give its binary text, without x or z, cut to their width. */
  lemma {:induction false} NumberAsText(value: nat, len: nat)
    ensures var t := Unpack(NumberChunks(value, len));
            TextValue(t) == value % Pow2(32 * len) && forall i :: 0 <= i < |t| ==> t[i] in "01"
  {
    var v := NumberChunks(value, len);
    if len > 0 {
      var rest := NumberChunks(value / TWO_TO_32, len - 1);
      NumberAsText(value / TWO_TO_32, len - 1);
      UnpackFirst(v);
      assert v[1..] == rest;
      var low := BitsText(v[0].aval);
      BitsTextValue(v[0].aval);
      WordValue(value % TWO_TO_32);
      hide BitsOf, ValueOf, NumberChunks, BitsText, Pow2, TextValue, Unpack;
      LowPart(value, len, Unpack(rest), low);
    } else {
      assert Unpack(v) == "";
      BaudGen.DivModUnique(value, 1, value, 0);
    }
  }

  lemma LowPart(value: nat, len: nat, high: string, low: string)
    requires len > 0 && |low| == 32 && TextValue(low) == value % TWO_TO_32
    requires TextValue(high) == value / TWO_TO_32 % Pow2(32 * (len - 1))
    ensures TextValue(high + low) == value % Pow2(32 * len)
  {
    TextJoin(high, low);
    Pow2Of32();
    Pow2Split(32, 32 * (len - 1));
    hide Pow2, TextValue;
    ModProduct(value, TWO_TO_32, Pow2(32 * (len - 1)), Pow2(32 * len));
  }

  /** The first chunk is the right end of the text. */
  lemma UnpackFirst(v: seq<Chunk>)
    requires v != [] && v[0].bval == ZERO_WORD
    ensures Unpack(v) == Unpack(v[1..]) + BitsText(v[0].aval)
  {
    var u, w := Unpack(v), Unpack(v[1..]) + BitsText(v[0].aval);
    forall t | 0 <= t < 32 * |v|
      ensures u[t] == w[t]
    {
      var k := 32 * |v| - 1 - t;
      UnpackAt(v, t);
      if k >= 32 {
        UnpackAt(v[1..], t);
        NextChunk(v, k);
      }
    }
  }

  lemma NextChunk(v: seq<Chunk>, k: nat)
    requires 32 <= k < 32 * |v|
    ensures SymbolAt(v, k) == SymbolAt(v[1..], k - 32)
  {
    assert k / 32 == (k - 32) / 32 + 1 && k % 32 == (k - 32) % 32;
  }
}
