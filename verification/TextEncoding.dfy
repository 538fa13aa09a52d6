/** Hexadecimal and decimal text, joining and splitting on colons. */
module TextEncoding {
  import opened Bytes
  import opened Options

  // ---------- Hexadecimal ----------

  function HexDigit(d: nat): char
    requires d < 16
  {
    "0123456789abcdef"[d]
  }

  /** A byte in base 16 without leading zeros. */
  function ToString16(b: byte): string {
    var n := b as int;
    if n < 16 then [HexDigit(n)] else [HexDigit(n / 16), HexDigit(n % 16)]
  }

  function PadStart2(s: string): string {
    if |s| >= 2 then s else if |s| == 1 then "0" + s else "00"
  }

  /** Every byte as two lower-case digits, one after the other. */
  function ToHex(bytes: Bytes): string {
    if bytes == [] then "" else PadStart2(ToString16(bytes[0])) + ToHex(bytes[1..])
  }

  /** Either case is read. */
  function HexValue(c: char): Option<nat> {
    if '0' <= c <= '9' then Some(c as int - '0' as int)
    else if 'a' <= c <= 'f' then Some(c as int - 'a' as int + 10)
    else if 'A' <= c <= 'F' then Some(c as int - 'A' as int + 10)
    else None
  }

  function FromHex(s: string): Option<Bytes> {
    if s == "" then Some([])
    else if |s| == 1 then None
    else
      match (HexValue(s[0]), HexValue(s[1]), FromHex(s[2..]))
      case (Some(high), Some(low), Some(rest)) =>
        if high < 16 && low < 16 then Some([(16 * high + low) as byte] + rest) else None
      case _ => None
  }

  lemma {:induction false} HexDigitValue(d: nat)
    requires d < 16
    ensures HexValue(HexDigit(d)) == Some(d) && HexDigit(d) != ':'
  {
  }

  lemma {:induction false} ByteText(b: byte)
    ensures var n := b as int;
      PadStart2(ToString16(b)) == [HexDigit(n / 16), HexDigit(n % 16)]
  {
  }

  lemma {:induction false} FromHexCons(high: nat, low: nat, text: string, rest: Bytes)
    requires high < 16 && low < 16 && FromHex(text) == Some(rest)
    ensures FromHex([HexDigit(high), HexDigit(low)] + text) == Some([(16 * high + low) as byte] + rest)
  {
    HexDigitValue(high);
    HexDigitValue(low);
    hide HexDigit, HexValue;
    var s := [HexDigit(high), HexDigit(low)] + text;
    assert s[2..] == text && s[0] == HexDigit(high) && s[1] == HexDigit(low);
  }

  /** Decoding undoes encoding, for every byte string. */
  lemma {:induction false} HexRoundTrip(bytes: Bytes)
    ensures FromHex(ToHex(bytes)) == Some(bytes)
    ensures |ToHex(bytes)| == 2 * |bytes|
    ensures ':' !in ToHex(bytes)
    decreases |bytes|
  {
    if bytes != [] {
      var n, rest := bytes[0] as int, bytes[1..];
      HexRoundTrip(rest);
      ByteText(bytes[0]);
      HexDigitValue(n / 16);
      HexDigitValue(n % 16);
      FromHexCons(n / 16, n % 16, ToHex(rest), rest);
      hide HexDigit, HexValue, PadStart2, ToString16, FromHex;
      assert ToHex(bytes) == [HexDigit(n / 16), HexDigit(n % 16)] + ToHex(rest);
      assert bytes == [bytes[0]] + rest;
    }
  }

  /** The digit for a value: 0 to 9, then a to f. */
  predicate IsDigitFor(c: char, d: int) {
    c as int == if d < 10 then '0' as int + d else 'a' as int + d - 10
  }

  lemma {:induction false} HexDigitIs(d: nat)
    requires d < 16
    ensures IsDigitFor(HexDigit(d), d)
  {
  }

  /** The two digits of a byte. */
  predicate AreDigitsOf(s: string, b: byte) {
    |s| == 2 && IsDigitFor(s[0], b as int / 16) && IsDigitFor(s[1], b as int % 16)
  }

  lemma {:induction false} ByteDigits(b: byte)
    ensures AreDigitsOf(PadStart2(ToString16(b)), b)
  {
    ByteText(b);
    HexDigitIs(b as int / 16);
    HexDigitIs(b as int % 16);
    hide HexDigit, PadStart2, ToString16, IsDigitFor;
  }

  lemma {:induction false} SliceAfterTwo(first: string, tail: string, a: nat)
    requires |first| == 2 && 2 <= a <= |tail|
    ensures (first + tail)[a..a + 2] == tail[a - 2..a]
  {
  }

  lemma {:induction false} HexSplits(bytes: Bytes)
    requires bytes != []
    ensures |ToHex(bytes)| == 2 * |bytes| && |ToHex(bytes[1..])| == 2 * |bytes| - 2
    ensures AreDigitsOf(ToHex(bytes)[..2], bytes[0]) && ToHex(bytes) == ToHex(bytes)[..2] + ToHex(bytes[1..])
  {
    HexRoundTrip(bytes);
    HexRoundTrip(bytes[1..]);
    ByteDigits(bytes[0]);
    var first := PadStart2(ToString16(bytes[0]));
    assert ToHex(bytes) == first + ToHex(bytes[1..]);
    hide *;
    assert ToHex(bytes)[..2] == first;
  }

  /** Byte i is written as its high and its low digit, at places 2i and 2i + 1. */
  lemma {:induction false} HexText(bytes: Bytes, i: nat)
    requires i < |bytes|
    ensures |ToHex(bytes)| == 2 * |bytes| && AreDigitsOf(ToHex(bytes)[2 * i..2 * i + 2], bytes[i])
    decreases i
  {
    hide *;
    HexSplits(bytes);
    if i > 0 {
      HexText(bytes[1..], i - 1);
      SliceAfterTwo(ToHex(bytes)[..2], ToHex(bytes[1..]), 2 * i);
      assert 2 * (i - 1) == 2 * i - 2 && 2 * (i - 1) + 2 == 2 * i;
    } else {
      assert ToHex(bytes)[0..2] == ToHex(bytes)[..2];
    }
  }

  // ---------- Decimal ----------

  function DecimalDigit(d: nat): char
    requires d < 10
  {
    "0123456789"[d]
  }

  function ToDecimal(n: nat): string {
    if n < 10 then [DecimalDigit(n)] else ToDecimal(n / 10) + [DecimalDigit(n % 10)]
  }

  function ParseDigits(s: string): Option<nat> {
    if s == "" then Some(0)
    else
      var c := s[|s| - 1];
      match ParseDigits(s[..|s| - 1])
      case Some(front) => if '0' <= c <= '9' then Some(10 * front + (c as int - '0' as int)) else None
      case None => None
  }

  function ParseDecimal(s: string): Option<nat> {
    if s == "" then None else ParseDigits(s)
  }

  lemma {:induction false} DecimalDigitValue(d: nat)
    requires d < 10
    ensures '0' <= DecimalDigit(d) <= '9' && DecimalDigit(d) as int - '0' as int == d
  {
  }

  /** Parsing undoes printing, for every natural number, and only zero starts with a zero. */
  lemma {:induction false} DecimalRoundTrip(n: nat)
    ensures |ToDecimal(n)| > 0 && ParseDigits(ToDecimal(n)) == Some(n)
    ensures ToDecimal(n)[0] == '0' <==> n == 0
    ensures ParseDecimal(ToDecimal(n)) == Some(n)
  {
    DecimalDigitValue(n % 10);
    if n < 10 {
      assert ToDecimal(n)[..0] == "";
      assert ParseDigits("") == Some(0);
    } else {
      DecimalRoundTrip(n / 10);
      var text := ToDecimal(n);
      assert text[..|text| - 1] == ToDecimal(n / 10);
    }
  }

  /** The last digit of a number is its remainder by ten, and the digits before it are its tenth. */
  lemma {:induction false} DecimalText(n: nat)
    ensures |ToDecimal(n)| > 0 && IsDigitFor(ToDecimal(n)[|ToDecimal(n)| - 1], n % 10)
    ensures ToDecimal(n)[..|ToDecimal(n)| - 1] == if n < 10 then "" else ToDecimal(n / 10)
  {
    DecimalDigitValue(n % 10);
  }

  // ---------- Colons ----------

  function Join(parts: seq<string>): string {
    if parts == [] then "" else if |parts| == 1 then parts[0] else parts[0] + ":" + Join(parts[1..])
  }

  function Split(s: string): (parts: seq<string>)
    ensures |parts| > 0
  {
    if s == "" then [""]
    else
      var rest := Split(s[1..]);
      if s[0] == ':' then [""] + rest else [[s[0]] + rest[0]] + rest[1..]
  }

  function Colons(s: string): nat {
    if s == "" then 0 else (if s[0] == ':' then 1 else 0) + Colons(s[1..])
  }

  lemma {:induction false} ColonsConcat(a: string, b: string)
    ensures Colons(a + b) == Colons(a) + Colons(b)
    decreases |a|
  {
    if a == "" {
      assert a + b == b;
    } else {
      assert (a + b)[0] == a[0] && (a + b)[1..] == a[1..] + b;
      ColonsConcat(a[1..], b);
    }
  }

  lemma {:induction false} NoColonsIff(s: string)
    ensures Colons(s) == 0 <==> ':' !in s
    decreases |s|
  {
    if s != "" {
      NoColonsIff(s[1..]);
      assert s == [s[0]] + s[1..];
    }
  }

  /** Splitting yields one part more than there are colons. */
  lemma {:induction false} SplitCount(s: string)
    ensures |Split(s)| == 1 + Colons(s)
    decreases |s|
  {
    if s != "" {
      SplitCount(s[1..]);
    }
  }

  lemma {:induction false} SplitFirst(p: string, rest: string)
    requires ':' !in p
    ensures Split(p) == [p]
    ensures Split(p + ":" + rest) == [p] + Split(rest)
    decreases |p|
  {
    if p == "" {
      assert p + ":" + rest == ":" + rest && (":" + rest)[1..] == rest;
    } else {
      assert p == [p[0]] + p[1..];
      SplitFirst(p[1..], rest);
      var whole := p + ":" + rest;
      assert whole[0] == p[0] && whole[1..] == p[1..] + ":" + rest;
    }
  }

  function TotalColons(parts: seq<string>): nat {
    if parts == [] then 0 else Colons(parts[0]) + TotalColons(parts[1..])
  }

  lemma {:induction false} JoinColons(parts: seq<string>)
    requires parts != []
    ensures Colons(Join(parts)) == |parts| - 1 + TotalColons(parts)
    decreases |parts|
  {
    if |parts| > 1 {
      JoinColons(parts[1..]);
      ColonsConcat(parts[0] + ":", Join(parts[1..]));
      ColonsConcat(parts[0], ":");
      assert Colons(":") == 1 by { assert ":"[1..] == ""; }
    } else {
      assert parts[1..] == [];
    }
  }

  lemma {:induction false} TotalZero(parts: seq<string>)
    requires TotalColons(parts) == 0
    ensures forall i :: 0 <= i < |parts| ==> ':' !in parts[i]
    decreases |parts|
  {
    if parts != [] {
      TotalZero(parts[1..]);
      NoColonsIff(parts[0]);
      forall i | 0 <= i < |parts|
        ensures ':' !in parts[i]
      {
        assert i > 0 ==> parts[i] == parts[1..][i - 1];
      }
    }
  }

  lemma {:induction false} SplitJoinClean(parts: seq<string>)
    requires parts != [] && forall i :: 0 <= i < |parts| ==> ':' !in parts[i]
    ensures Split(Join(parts)) == parts
    decreases |parts|
  {
    if |parts| == 1 {
      SplitFirst(parts[0], "");
      assert parts == [parts[0]];
    } else {
      SplitJoinClean(parts[1..]);
      SplitFirst(parts[0], Join(parts[1..]));
      assert parts == [parts[0]] + parts[1..];
    }
  }

  /** Splitting undoes joining exactly when no part contains a colon; otherwise there are too many parts. */
  lemma {:induction false} SplitJoinIff(parts: seq<string>)
    requires parts != []
    ensures Split(Join(parts)) == parts <==> forall i :: 0 <= i < |parts| ==> ':' !in parts[i]
    ensures |Split(Join(parts))| == |parts| <==> forall i :: 0 <= i < |parts| ==> ':' !in parts[i]
  {
    hide Split, Join, Colons, TotalColons;
    SplitCount(Join(parts));
    JoinColons(parts);
    if TotalColons(parts) == 0 {
      TotalZero(parts);
    }
    if forall i :: 0 <= i < |parts| ==> ':' !in parts[i] {
      SplitJoinClean(parts);
    }
  }
}
