/** RADIUS messages: the pairing key and the attributes rendered as text. */
module RadiusMessages {
  import opened Wrappers
  import opened Integers

  // ---- Decimal numbers, as std::to_string writes them ----

  const DIGITS: string := "0123456789ABCDEF"

  function Decimal(n: nat): (s: string)
    ensures s != []
  {
    if n < 10 then [DIGITS[n]] else Decimal(n / 10) + [DIGITS[n % 10]]
  }

  /** std::to_string of a signed number. */
  function SignedDecimal(n: int): string {
    if n < 0 then "-" + Decimal(-n) else Decimal(n)
  }

  function DigitValue(c: char): Option<nat> {
    if '0' <= c <= '9' then Some(c as int - '0' as int)
    else if 'A' <= c <= 'F' then Some(c as int - 'A' as int + 10)
    else None
  }

  /** Reads a decimal number back: digits only, and no zero in front of others. */
  function ParseDecimal(s: string): Option<nat> {
    if s == "" then None
    else
      var last := DigitValue(s[|s| - 1]);
      if last.None? || last.value > 9 then None
      else if |s| == 1 then last
      else
        var front := ParseDecimal(s[..|s| - 1]);
        if front.None? || front.value == 0 then None else Some(front.value * 10 + last.value)
  }

  lemma DigitRoundTrip(n: nat)
    requires n < 16
    ensures DigitValue(DIGITS[n]) == Some(n) && DIGITS[n] != '.' && DIGITS[n] != '-'
  {
  }

  lemma LastDigit(front: nat, d: nat)
    requires d < 10
    ensures (front * 10 + d) / 10 == front && (front * 10 + d) % 10 == d
  {
  }

  lemma {:induction false} DecimalRoundTrip(n: nat)
    ensures ParseDecimal(Decimal(n)) == Some(n)
    ensures '.' !in Decimal(n) && '-' !in Decimal(n)
  {
    if n < 10 {
      DigitRoundTrip(n);
    } else {
      var front, d := n / 10, n % 10;
      DecimalRoundTrip(front);
      DigitRoundTrip(d);
      assert n == front * 10 + d && Decimal(n) == Decimal(front) + [DIGITS[d]];
      assert Decimal(n)[..|Decimal(n)| - 1] == Decimal(front);
    }
  }

  lemma DigitIsOnly(c: char)
    ensures DigitValue(c).Some? ==> DigitValue(c).value < 16 && DIGITS[DigitValue(c).value] == c
  {
  }

  lemma DecimalSnoc(front: nat, d: nat)
    requires front > 0 && d < 10
    ensures Decimal(front * 10 + d) == Decimal(front) + [DIGITS[d]]
  {
    LastDigit(front, d);
  }

  /** How a text of more than one digit is read. */
  lemma ParseUnfolds(s: string)
    requires |s| > 1 && ParseDecimal(s).Some?
    ensures var front, last := ParseDecimal(s[..|s| - 1]), DigitValue(s[|s| - 1]);
            && front.Some? && front.value > 0 && last.Some? && last.value < 10
            && ParseDecimal(s).value == front.value * 10 + last.value
  {
  }

  /** No other text reads as the number. */
  lemma {:induction false} DecimalIsOnly(s: string)
    requires ParseDecimal(s).Some?
    ensures s == Decimal(ParseDecimal(s).value)
    decreases |s|
  {
    var n := |s| - 1;
    DigitIsOnly(s[n]);
    if n > 0 {
      ParseUnfolds(s);
      DecimalIsOnly(s[..n]);
      DecimalSnoc(ParseDecimal(s[..n]).value, DigitValue(s[n]).value);
      assert s == s[..n] + [s[n]];
    } else {
      assert s == [s[0]];
    }
  }

  /** Different identifiers have different keys. */
  lemma KeyIsInjective(a: nat, b: nat)
    requires Decimal(a) == Decimal(b)
    ensures a == b
  {
    DecimalRoundTrip(a);
    DecimalRoundTrip(b);
  }

  // ---- Octets in hexadecimal ----

  function HexByte(b: byte): string {
    [DIGITS[b / 16], DIGITS[b % 16]]
  }

  function HexString(octets: seq<byte>): string {
    if octets == [] then "" else HexByte(octets[0]) + HexString(octets[1..])
  }

  function HexDecode(s: string): Option<seq<byte>>
    decreases |s|
  {
    if s == "" then Some([])
    else if |s| == 1 then None
    else
      match (DigitValue(s[0]), DigitValue(s[1]), HexDecode(s[2..]))
      case (Some(hi), Some(lo), Some(rest)) => Some([hi * 16 + lo] + rest)
      case _ => None
  }

  lemma HexByteRoundTrip(b: byte)
    ensures var s := HexByte(b);
            && |s| == 2 && DigitValue(s[0]) == Some(b / 16) && DigitValue(s[1]) == Some(b % 16)
            && b / 16 * 16 + b % 16 == b
  {
    DigitRoundTrip(b / 16);
    DigitRoundTrip(b % 16);
  }

  /** The rendering has two digits per octet and is undone by the decoder, for every octet string. */
  lemma {:induction false} HexRoundTrip(octets: seq<byte>)
    ensures |HexString(octets)| == 2 * |octets|
    ensures HexDecode(HexString(octets)) == Some(octets)
  {
    if octets != [] {
      var b, s := octets[0], HexString(octets);
      HexByteRoundTrip(b);
      HexRoundTrip(octets[1..]);
      assert s[2..] == HexString(octets[1..]) && s[0] == HexByte(b)[0] && s[1] == HexByte(b)[1];
      assert octets == [b] + octets[1..];
    }
  }

  /** No other text decodes to the octets. */
  lemma {:induction false} HexIsOnly(s: string)
    requires HexDecode(s).Some?
    ensures s == HexString(HexDecode(s).value)
    decreases |s|
  {
    if s != "" {
      var hi, lo, rest := DigitValue(s[0]).value, DigitValue(s[1]).value, HexDecode(s[2..]).value;
      DigitIsOnly(s[0]);
      DigitIsOnly(s[1]);
      HexIsOnly(s[2..]);
      var octets: seq<byte> := [hi * 16 + lo] + rest;
      assert octets[0] / 16 == hi && octets[0] % 16 == lo && octets[1..] == rest;
      assert s == [s[0], s[1]] + s[2..];
    }
  }

  /** `octetsToString`: two upper-case digits per octet, appended one octet at a time. */
  method OctetsToString(attr: seq<byte>) returns (stream: string)
    ensures stream == HexString(attr)
  {
    stream := "";
    for i := 0 to |attr|
      invariant HexString(attr) == stream + HexString(attr[i..])
    {
      stream := stream + HexByte(attr[i]);
      assert attr[i..] == [attr[i]] + attr[i + 1..];
    }
  }

  // ---- Addresses in dotted form ----

  /** `ipv4ToString` on an attribute of at least four octets. */
  function DottedQuad(a: seq<byte>): string
    requires |a| >= 4
  {
    Decimal(a[0]) + "." + (Decimal(a[1]) + "." + (Decimal(a[2]) + "." + Decimal(a[3])))
  }

  /** Splits at the dots. */
  function SplitAtDots(s: string): (parts: seq<string>)
    ensures parts != []
  {
    if s == "" then [""]
    else
      var rest := SplitAtDots(s[1..]);
      if s[0] == '.' then [""] + rest else [[s[0]] + rest[0]] + rest[1..]
  }

  /** Four decimal numbers, each of which fits an octet. */
  function ParseDottedQuad(s: string): Option<seq<byte>> {
    var parts := SplitAtDots(s);
    if |parts| != 4 then None
    else
      match (ParseDecimal(parts[0]), ParseDecimal(parts[1]), ParseDecimal(parts[2]), ParseDecimal(parts[3]))
      case (Some(a), Some(b), Some(c), Some(d)) =>
        if a < 256 && b < 256 && c < 256 && d < 256 then Some([a, b, c, d]) else None
      case _ => None
  }

  lemma {:induction false} SplitFirst(head: string, rest: string)
    requires '.' !in head
    ensures SplitAtDots(head + "." + rest) == [head] + SplitAtDots(rest)
    ensures SplitAtDots(head) == [head]
    decreases |head|
  {
    if head == "" {
      assert head + "." + rest == "." + rest;
      assert ("." + rest)[1..] == rest;
    } else {
      SplitFirst(head[1..], rest);
      assert (head + "." + rest)[1..] == head[1..] + "." + rest;
      assert [head[0]] + head[1..] == head;
    }
  }

  lemma SplitFour(a: string, b: string, c: string, d: string)
    requires '.' !in a && '.' !in b && '.' !in c && '.' !in d
    ensures SplitAtDots(a + "." + (b + "." + (c + "." + d))) == [a, b, c, d]
  {
    SplitFirst(d, "");
    SplitFirst(c, d);
    SplitFirst(b, c + "." + d);
    SplitFirst(a, b + "." + (c + "." + d));
  }

  /** The dotted form of every address is undone by the parser. */
  lemma DottedQuadRoundTrip(a: seq<byte>)
    requires |a| == 4
    ensures ParseDottedQuad(DottedQuad(a)) == Some(a)
  {
    DecimalRoundTrip(a[0]);
    DecimalRoundTrip(a[1]);
    DecimalRoundTrip(a[2]);
    DecimalRoundTrip(a[3]);
    SplitFour(Decimal(a[0]), Decimal(a[1]), Decimal(a[2]), Decimal(a[3]));
    assert a == [a[0], a[1], a[2], a[3]];
  }

  lemma {:induction false} SplitIsOnly(s: string, t: string)
    requires SplitAtDots(s) == SplitAtDots(t)
    ensures s == t
    decreases |s|
  {
    if s == "" || t == "" {
      SplitHasDots(s);
      SplitHasDots(t);
    } else {
      SplitHead(s);
      SplitHead(t);
      assert SplitAtDots(s[1..]) == SplitAtDots(t[1..]) by {
        var a, b := SplitAtDots(s[1..]), SplitAtDots(t[1..]);
        if s[0] == '.' {
          assert SplitAtDots(s)[1..] == a && SplitAtDots(t)[1..] == b;
        } else {
          assert SplitAtDots(s)[0][1..] == a[0] && SplitAtDots(t)[0][1..] == b[0];
          assert SplitAtDots(s)[1..] == a[1..] && SplitAtDots(t)[1..] == b[1..];
          assert a == [a[0]] + a[1..] && b == [b[0]] + b[1..];
        }
      }
      SplitIsOnly(s[1..], t[1..]);
      assert s == [s[0]] + s[1..] && t == [t[0]] + t[1..];
    }
  }

  lemma SplitHasDots(s: string)
    ensures SplitAtDots(s) == [""] <==> s == ""
  {
  }

  /** The first part tells the first character: empty before a dot. */
  lemma SplitHead(s: string)
    requires s != ""
    ensures var p := SplitAtDots(s);
            if s[0] == '.' then p[0] == "" && |p| > 1 else p[0] != "" && p[0][0] == s[0]
  {
  }

  /** No other text is the dotted form of the address. */
  lemma DottedQuadIsOnly(s: string, a: seq<byte>)
    requires ParseDottedQuad(s) == Some(a)
    ensures |a| == 4 && s == DottedQuad(a)
  {
    var parts := SplitAtDots(s);
    DecimalIsOnly(parts[0]);
    DecimalIsOnly(parts[1]);
    DecimalIsOnly(parts[2]);
    DecimalIsOnly(parts[3]);
    DecimalRoundTrip(a[0]);
    DecimalRoundTrip(a[1]);
    DecimalRoundTrip(a[2]);
    DecimalRoundTrip(a[3]);
    SplitFour(Decimal(a[0]), Decimal(a[1]), Decimal(a[2]), Decimal(a[3]));
    assert parts == SplitAtDots(DottedQuad(a));
    SplitIsOnly(s, DottedQuad(a));
  }

  // ---- Rendering one attribute ----

  datatype PwType =
    | PW_TYPE_OCTETS | PW_TYPE_STRING | PW_TYPE_INTEGER | PW_TYPE_DATE | PW_TYPE_IPV4_ADDR | PW_TYPE_BYTE
    | PW_TYPE_SHORT | PW_TYPE_INTEGER64 | PW_TYPE_SIGNED | PW_TYPE_BOOLEAN | PW_TYPE_OTHER

  /** A little-endian number in the first `n` octets of the memory. */
  function LittleEndian(mem: seq<byte>, n: nat): nat
    requires n <= |mem|
  {
    if n == 0 then 0 else mem[0] + 256 * LittleEndian(mem[1..], n - 1)
  }

  /** The text up to the first zero octet. */
  function CString(mem: seq<byte>): string
    requires 0 in mem
  {
    if mem[0] == 0 then "" else [mem[0] as char] + CString(mem[1..])
  }

  /** The memory behind the attribute pointer is large enough for the converter of this type. */
  predicate Holds(mem: seq<byte>, len: nat, kind: PwType) {
    match kind
    case PW_TYPE_STRING => 0 in mem
    case PW_TYPE_INTEGER => |mem| >= 4
    case PW_TYPE_SIGNED => |mem| >= 4
    case PW_TYPE_INTEGER64 => |mem| >= 8
    case PW_TYPE_DATE => |mem| >= 8
    case PW_TYPE_SHORT => |mem| >= 2
    case PW_TYPE_BYTE => |mem| >= 1
    case PW_TYPE_BOOLEAN => |mem| >= 1
    case _ => |mem| >= len
  }

  /** No converter needs more memory than its type has octets. */
  lemma EnoughMemory(mem: seq<byte>, len: nat)
    ensures |mem| == 1 ==> Holds(mem, len, PW_TYPE_BYTE) && Holds(mem, len, PW_TYPE_BOOLEAN)
    ensures |mem| == 2 ==> Holds(mem, len, PW_TYPE_SHORT)
    ensures |mem| == 4 ==> Holds(mem, len, PW_TYPE_INTEGER) && Holds(mem, len, PW_TYPE_SIGNED)
    ensures |mem| == 8 ==> Holds(mem, len, PW_TYPE_INTEGER64) && Holds(mem, len, PW_TYPE_DATE)
    ensures |mem| == len ==> Holds(mem, len, PW_TYPE_OCTETS) && Holds(mem, len, PW_TYPE_OTHER)
    ensures |mem| == len ==> Holds(mem, len, PW_TYPE_IPV4_ADDR)
    ensures Holds(mem + [0], len, PW_TYPE_STRING)
  {
    assert (mem + [0])[|mem|] == 0;
  }

  /** `attrToString`: the converter of the type, or octets for a type without one. `ctime` is the library's text
      for a time, whose line end is cut off. */
  function AttrToString(mem: seq<byte>, len: nat, kind: PwType, ctime: nat -> string): string
    requires Holds(mem, len, kind)
  {
    match kind
    case PW_TYPE_STRING => CString(mem)
    case PW_TYPE_INTEGER => Decimal(LittleEndian(mem, 4))
    case PW_TYPE_SIGNED => SignedDecimal(NarrowTo32(LittleEndian(mem, 4)))
    case PW_TYPE_INTEGER64 => Decimal(LittleEndian(mem, 8))
    case PW_TYPE_SHORT => Decimal(LittleEndian(mem, 2))
    case PW_TYPE_BYTE => Decimal(mem[0])
    case PW_TYPE_BOOLEAN => if mem[0] == 0 then "False" else "True"
    case PW_TYPE_IPV4_ADDR => if len < 4 then "incorrect addr" else DottedQuad(mem)
    case PW_TYPE_DATE =>
      var text := ctime(LittleEndian(mem, 8));
      if |text| > 0 then text[..|text| - 1] else text
    case PW_TYPE_OCTETS => HexString(mem[..len])
    case PW_TYPE_OTHER => HexString(mem[..len])
  }

  // ---- What the renderings say ----

  /** The text is the octets before the first zero. */
  ghost predicate IsTextBefore(text: string, mem: seq<byte>, k: nat) {
    k < |mem| && mem[k] == 0 && |text| == k && forall i :: 0 <= i < k ==> mem[i] != 0 && text[i] == mem[i] as char
  }

  /** Octets as a number, the lowest first. */
  function Sum2(m: seq<byte>): nat
    requires |m| >= 2
  {
    m[0] as int + 0x100 * m[1] as int
  }

  function Sum4(m: seq<byte>): nat
    requires |m| >= 4
  {
    m[0] as int + 0x100 * m[1] as int + 0x1_0000 * m[2] as int + 0x100_0000 * m[3] as int
  }

  function Sum8(m: seq<byte>): nat
    requires |m| >= 8
  {
    m[0] as int + 0x100 * m[1] as int + 0x1_0000 * m[2] as int + 0x100_0000 * m[3] as int
    + 0x1_0000_0000 * m[4] as int + 0x100_0000_0000 * m[5] as int
    + 0x1_0000_0000_0000 * m[6] as int + 0x100_0000_0000_0000 * m[7] as int
  }

  /** What a reader of the text learns about the memory, type by type, told by octets and by reading back. */
  ghost predicate Shows(text: string, mem: seq<byte>, len: nat, kind: PwType, ctime: nat -> string)
    requires Holds(mem, len, kind)
  {
    match kind
    case PW_TYPE_STRING => exists k: nat :: IsTextBefore(text, mem, k)
    case PW_TYPE_INTEGER => ParseDecimal(text) == Some(Sum4(mem))
    case PW_TYPE_SIGNED =>
      if mem[3] < 0x80 then ParseDecimal(text) == Some(Sum4(mem))
      else text != "" && text[0] == '-' && ParseDecimal(text[1..]) == Some(0x1_0000_0000 - Sum4(mem))
    case PW_TYPE_INTEGER64 => ParseDecimal(text) == Some(Sum8(mem))
    case PW_TYPE_SHORT => ParseDecimal(text) == Some(Sum2(mem))
    case PW_TYPE_BYTE => ParseDecimal(text) == Some(mem[0] as nat)
    case PW_TYPE_BOOLEAN => (text == "False" && mem[0] == 0) || (text == "True" && mem[0] != 0)
    case PW_TYPE_IPV4_ADDR => if len < 4 then text == "incorrect addr" else ParseDottedQuad(text) == Some(mem[..4])
    case PW_TYPE_DATE => IsWithoutLineEnd(text, ctime(Sum8(mem)))
    case PW_TYPE_OCTETS => HexDecode(text) == Some(mem[..len])
    case PW_TYPE_OTHER => HexDecode(text) == Some(mem[..len])
  }

  /** The whole of an empty text, all but the last character of any other. */
  predicate IsWithoutLineEnd(text: string, whole: string) {
    text <= whole && |text| == if whole == "" then 0 else |whole| - 1
  }

  lemma LittleEndian1(m: seq<byte>)
    requires |m| >= 1
    ensures LittleEndian(m, 1) == m[0]
  {
    assert LittleEndian(m[1..], 0) == 0;
  }

  lemma LittleEndian2(m: seq<byte>)
    requires |m| >= 2
    ensures LittleEndian(m, 2) == Sum2(m)
  {
    LittleEndian1(m[1..]);
  }

  lemma LittleEndian4(m: seq<byte>)
    requires |m| >= 4
    ensures LittleEndian(m, 4) == Sum4(m)
  {
    LittleEndian2(m[1..][1..]);
    assert LittleEndian(m[1..], 3) == m[1] + 256 * LittleEndian(m[1..][1..], 2);
  }

  lemma LittleEndian8(m: seq<byte>)
    requires |m| >= 8
    ensures LittleEndian(m, 8) == Sum8(m)
  {
    var m4 := m[1..][1..][1..][1..];
    LittleEndian4(m4);
    assert LittleEndian(m[1..][1..][1..], 5) == m[3] + 256 * LittleEndian(m4, 4);
    assert LittleEndian(m[1..][1..], 6) == m[2] + 256 * LittleEndian(m[1..][1..][1..], 5);
    assert LittleEndian(m[1..], 7) == m[1] + 256 * LittleEndian(m[1..][1..], 6);
  }

  lemma {:induction false} CStringShows(mem: seq<byte>) returns (k: nat)
    requires 0 in mem
    ensures IsTextBefore(CString(mem), mem, k)
    decreases |mem|
  {
    if mem[0] == 0 {
      k := 0;
    } else {
      assert mem == [mem[0]] + mem[1..];
      var j := CStringShows(mem[1..]);
      k := j + 1;
      assert forall i :: 0 < i < k ==> mem[i] == mem[1..][i - 1];
    }
  }

  /** The top bit is the sign. */
  lemma SignedValue(m: seq<byte>)
    requires |m| >= 4
    ensures NarrowTo32(Sum4(m)) == if m[3] < 0x80 then Sum4(m) else Sum4(m) - 0x1_0000_0000
    ensures Sum4(m) < 0x1_0000_0000
  {
    NarrowsTo32(Sum4(m));
  }

  lemma SignedDecimalReads(n: int)
    ensures var text := SignedDecimal(n);
            if n >= 0 then ParseDecimal(text) == Some(n)
            else text != "" && text[0] == '-' && ParseDecimal(text[1..]) == Some(-n)
  {
    if n >= 0 {
      DecimalRoundTrip(n);
    } else {
      DecimalRoundTrip(-n);
      assert SignedDecimal(n)[1..] == Decimal(-n);
    }
  }

  lemma SignedShows(mem: seq<byte>, text: string)
    requires |mem| >= 4 && text == SignedDecimal(NarrowTo32(LittleEndian(mem, 4)))
    ensures if mem[3] < 0x80 then ParseDecimal(text) == Some(Sum4(mem))
            else text != "" && text[0] == '-' && ParseDecimal(text[1..]) == Some(0x1_0000_0000 - Sum4(mem))
  {
    LittleEndian4(mem);
    SignedValue(mem);
    SignedDecimalReads(NarrowTo32(Sum4(mem)));
  }

  /** `attrToString` says what it should, for every type. */
  lemma RenderingShows(mem: seq<byte>, len: nat, kind: PwType, ctime: nat -> string)
    requires Holds(mem, len, kind)
    ensures Shows(AttrToString(mem, len, kind, ctime), mem, len, kind, ctime)
  {
    match kind
    case PW_TYPE_STRING => var k := CStringShows(mem);
    case PW_TYPE_INTEGER => LittleEndian4(mem); DecimalRoundTrip(Sum4(mem));
    case PW_TYPE_SIGNED => SignedShows(mem, AttrToString(mem, len, kind, ctime));
    case PW_TYPE_INTEGER64 => LittleEndian8(mem); DecimalRoundTrip(Sum8(mem));
    case PW_TYPE_SHORT => LittleEndian2(mem); DecimalRoundTrip(Sum2(mem));
    case PW_TYPE_BYTE => DecimalRoundTrip(mem[0]);
    case PW_TYPE_BOOLEAN =>
    case PW_TYPE_IPV4_ADDR => if len >= 4 { DottedQuadRoundTrip(mem[..4]); }
    case PW_TYPE_DATE => LittleEndian8(mem);
    case PW_TYPE_OCTETS => HexRoundTrip(mem[..len]);
    case PW_TYPE_OTHER => HexRoundTrip(mem[..len]);
  }

  /** And no other text would say the same. */
  lemma RenderingIsOnly(mem: seq<byte>, len: nat, kind: PwType, ctime: nat -> string, a: string, b: string)
    requires Holds(mem, len, kind) && Shows(a, mem, len, kind, ctime) && Shows(b, mem, len, kind, ctime)
    ensures a == b
  {
    match kind
    case PW_TYPE_STRING => OneTextBefore(mem, a, b);
    case PW_TYPE_INTEGER => DecimalIsOnly(a); DecimalIsOnly(b);
    case PW_TYPE_SIGNED =>
      if mem[3] < 0x80 {
        DecimalIsOnly(a);
        DecimalIsOnly(b);
      } else {
        DecimalIsOnly(a[1..]);
        DecimalIsOnly(b[1..]);
        assert a == [a[0]] + a[1..] && b == [b[0]] + b[1..];
      }
    case PW_TYPE_INTEGER64 => DecimalIsOnly(a); DecimalIsOnly(b);
    case PW_TYPE_SHORT => DecimalIsOnly(a); DecimalIsOnly(b);
    case PW_TYPE_BYTE => DecimalIsOnly(a); DecimalIsOnly(b);
    case PW_TYPE_BOOLEAN =>
    case PW_TYPE_IPV4_ADDR => if len >= 4 { DottedQuadIsOnly(a, mem[..4]); DottedQuadIsOnly(b, mem[..4]); }
    case PW_TYPE_DATE =>
    case PW_TYPE_OCTETS => HexIsOnly(a); HexIsOnly(b);
    case PW_TYPE_OTHER => HexIsOnly(a); HexIsOnly(b);
  }

  lemma OneTextBefore(mem: seq<byte>, a: string, b: string)
    requires (exists k: nat :: IsTextBefore(a, mem, k)) && (exists k: nat :: IsTextBefore(b, mem, k))
    ensures a == b
  {
    var j: nat :| IsTextBefore(a, mem, j);
    var k: nat :| IsTextBefore(b, mem, k);
    assert j == k;
  }

  // ---- Building the attribute map ----

  /** One attribute of a decoded packet: strings and octets sit behind a pointer, the rest inside the record. */
  datatype ValuePair = ValuePair(
    attr: nat, kind: PwType, encrypt: bool, pointed: seq<byte>, inline: seq<byte>, len: nat)

  /** An encrypted string is shown as octets. */
  function EffectiveType(vp: ValuePair): PwType {
    if vp.encrypt && vp.kind == PW_TYPE_STRING then PW_TYPE_OCTETS else vp.kind
  }

  function Memory(vp: ValuePair): seq<byte> {
    var kind := EffectiveType(vp);
    if kind == PW_TYPE_STRING || kind == PW_TYPE_OCTETS then vp.pointed else vp.inline
  }

  predicate Sound(vp: ValuePair) {
    Holds(Memory(vp), vp.len, EffectiveType(vp))
  }

  function Rendered(vp: ValuePair, ctime: nat -> string): string
    requires Sound(vp)
  {
    AttrToString(Memory(vp), vp.len, EffectiveType(vp), ctime)
  }

  /** What the text says about the attribute: strings and octets are looked up behind the pointer, everything else
      inside the record, and an encrypted string is shown in octets. */
  ghost predicate ShowsAttribute(text: string, vp: ValuePair, ctime: nat -> string)
    requires Sound(vp)
  {
    if vp.kind == PW_TYPE_STRING && vp.encrypt then Shows(text, vp.pointed, vp.len, PW_TYPE_OCTETS, ctime)
    else if vp.kind == PW_TYPE_STRING || vp.kind == PW_TYPE_OCTETS then Shows(text, vp.pointed, vp.len, vp.kind, ctime)
    else Shows(text, vp.inline, vp.len, vp.kind, ctime)
  }

  lemma RenderedShows(vp: ValuePair, ctime: nat -> string)
    requires Sound(vp)
    ensures ShowsAttribute(Rendered(vp, ctime), vp, ctime)
  {
    RenderingShows(Memory(vp), vp.len, EffectiveType(vp), ctime);
  }

  /** Attribute number i is the last one that the key stands for: a key is a short, so it stands for every number that
      differs from it by a multiple of 2^16. */
  ghost predicate LastWith(vps: seq<ValuePair>, key: int16, i: nat) {
    && i < |vps| && (vps[i].attr - key) % 0x1_0000 == 0
    && forall j :: i < j < |vps| ==> (vps[j].attr - key) % 0x1_0000 != 0
  }

  lemma LastWithSnoc(vps: seq<ValuePair>, vp: ValuePair, key: int16, i: nat)
    ensures LastWith(vps + [vp], key, i) <==>
            if (vp.attr - key) % 0x1_0000 == 0 then i == |vps| else LastWith(vps, key, i)
  {
    var all := vps + [vp];
    assert all[|vps|] == vp && forall j :: 0 <= j < |vps| ==> all[j] == vps[j];
  }

  /** The attribute map of a packet: a key is present exactly when some attribute has it, and then it holds what the
      last such attribute shows. An attribute number below 2^15 is its own key. */
  ghost predicate IsAttributesOf(attrs: map<int16, string>, vps: seq<ValuePair>, ctime: nat -> string)
    requires forall vp <- vps :: Sound(vp)
  {
    && (forall key <- attrs :: HasKey(vps, key))
    && (forall key: int16, i: nat :: LastWith(vps, key, i) ==>
          key in attrs && ShowsAttribute(attrs[key], vps[i], ctime))
  }

  /** Some attribute has the key. */
  ghost predicate HasKey(vps: seq<ValuePair>, key: int16) {
    exists i: nat :: LastWith(vps, key, i)
  }

  /** One more attribute overwrites its own key and no other. */
  lemma KeyAfter(vps: seq<ValuePair>, vp: ValuePair, key: int16)
    requires key == NarrowTo16(vp.attr) || HasKey(vps, key)
    ensures HasKey(vps + [vp], key)
  {
    NarrowsTo16(vp.attr, key);
    if key == NarrowTo16(vp.attr) {
      LastWithSnoc(vps, vp, key, |vps|);
    } else {
      var i: nat :| LastWith(vps, key, i);
      LastWithSnoc(vps, vp, key, i);
    }
  }

  lemma ShownAfter(attrs: map<int16, string>, vps: seq<ValuePair>, vp: ValuePair, ctime: nat -> string,
                   key: int16, i: nat)
    requires (forall v <- vps :: Sound(v)) && Sound(vp) && IsAttributesOf(attrs, vps, ctime)
    requires LastWith(vps + [vp], key, i)
    ensures var attrs' := attrs[NarrowTo16(vp.attr) := Rendered(vp, ctime)];
            key in attrs' && Sound((vps + [vp])[i]) && ShowsAttribute(attrs'[key], (vps + [vp])[i], ctime)
  {
    NarrowsTo16(vp.attr, key);
    LastWithSnoc(vps, vp, key, i);
    RenderedShows(vp, ctime);
    if i < |vps| {
      assert (vps + [vp])[i] == vps[i] && Sound(vps[i]);
    }
  }

  lemma OneMoreAttribute(attrs: map<int16, string>, vps: seq<ValuePair>, vp: ValuePair, ctime: nat -> string)
    requires (forall v <- vps :: Sound(v)) && Sound(vp) && IsAttributesOf(attrs, vps, ctime)
    ensures forall v <- vps + [vp] :: Sound(v)
    ensures IsAttributesOf(attrs[NarrowTo16(vp.attr) := Rendered(vp, ctime)], vps + [vp], ctime)
  {
    var attrs' := attrs[NarrowTo16(vp.attr) := Rendered(vp, ctime)];
    forall key <- attrs'
      ensures HasKey(vps + [vp], key)
    {
      KeyAfter(vps, vp, key);
    }
    forall key: int16, i: nat | LastWith(vps + [vp], key, i)
      ensures key in attrs' && Sound((vps + [vp])[i]) && ShowsAttribute(attrs'[key], (vps + [vp])[i], ctime)
    {
      ShownAfter(attrs, vps, vp, ctime, key, i);
    }
  }

  /** `buildAttrsFromRadiusPacket`: the key of the message and its attribute map. */
  method BuildAttrsFromRadiusPacket(id: nat, vps: seq<ValuePair>, ctime: nat -> string)
    returns (identifier: string, attrs: map<int16, string>)
    requires forall vp <- vps :: Sound(vp)
    ensures ParseDecimal(identifier) == Some(id)
    ensures identifier == Decimal(id)
    ensures IsAttributesOf(attrs, vps, ctime)
  {
    identifier := Decimal(id);
    DecimalRoundTrip(id);
    attrs := map[];
    for i := 0 to |vps|
      invariant forall vp <- vps[..i] :: Sound(vp)
      invariant IsAttributesOf(attrs, vps[..i], ctime)
    {
      OneMoreAttribute(attrs, vps[..i], vps[i], ctime);
      assert vps[..i + 1] == vps[..i] + [vps[i]];
      attrs := attrs[NarrowTo16(vps[i].attr) := Rendered(vps[i], ctime)];
    }
    assert vps[..|vps|] == vps;
  }
}
