/**
 48-bit Bluetooth addresses as numbers: parsing, formatting, and finding an
 address inside a Windows device id. The source's uint64_t shifts are written
 as arithmetic: `x << 8 | v` is `x * 256 + v` because v <= 0xFF and the
 accumulator stays below 2^48.
 */
module WinrtAddress {
  import opened Text
  import opened Addresses

  const TWO_48: nat := 0x1_0000_0000_0000

  // ----- strtoul, base 16 -----

  predicate IsHexDigit(c: char) {
    '0' <= c <= '9' || 'A' <= c <= 'F' || 'a' <= c <= 'f'
  }

  predicate IsUpperHex(c: char) {
    '0' <= c <= '9' || 'A' <= c <= 'F'
  }

  function HexValue(c: char): (v: nat)
    requires IsHexDigit(c)
    ensures v < 16
  {
    if c <= '9' then c as int - '0' as int
    else if c <= 'F' then c as int - 'A' as int + 10
    else c as int - 'a' as int + 10
  }

  predicate IsSpace(c: char) {
    c == ' ' || '\t' <= c <= '\r'
  }

  function SkipSpace(t: string): string {
    if t != "" && IsSpace(t[0]) then SkipSpace(t[1..]) else t
  }

  function HexRun(t: string, acc: nat): nat {
    if t != "" && IsHexDigit(t[0]) then HexRun(t[1..], acc * 16 + HexValue(t[0])) else acc
  }

  /** What is left of an unsigned number when a 0x in front of a digit is skipped. */
  function Digits(v: string): string {
    if |v| >= 3 && v[0] == '0' && (v[1] == 'x' || v[1] == 'X') && IsHexDigit(v[2]) then v[2..] else v
  }

  /**
   Leading blanks, an optional plus sign and an optional 0x are skipped; what
   follows the digits is ignored. A minus sign cannot occur in a normalised part.
   */
  function StrToUL(t: string): Option<nat> {
    var u := SkipSpace(t);
    var v := if u != "" && u[0] == '+' then u[1..] else u;
    var w := Digits(v);
    if w == "" || !IsHexDigit(w[0]) then None else Some(HexRun(w, 0))
  }

  const DIGITS: string := "0123456789ABCDEF"

  /** A digit's value is its place among the digits, in either case. */
  lemma HexValueIsPlace(c: char)
    ensures IsHexDigit(c) <==> UpperChar(c) in DIGITS
    ensures IsHexDigit(c) ==> DIGITS[HexValue(c)] == UpperChar(c)
  {
    if UpperChar(c) in DIGITS {
      var i :| 0 <= i < 16 && DIGITS[i] == UpperChar(c);
    }
    if IsHexDigit(c) {
      assert DIGITS[HexValue(c)] in DIGITS;
    }
  }

  lemma {:induction false} SkipBlanks(blanks: string, t: string)
    requires forall i :: 0 <= i < |blanks| ==> blanks[i] == ' ' || '\t' <= blanks[i] <= '\r'
    requires t != "" && t[0] != ' ' && !('\t' <= t[0] <= '\r')
    ensures SkipSpace(blanks + t) == t
  {
    if blanks == "" {
      assert blanks + t == t;
    } else {
      assert (blanks + t)[1..] == blanks[1..] + t;
      SkipBlanks(blanks[1..], t);
    }
  }

  lemma {:induction false} RunStops(h: string, rest: string, acc: nat)
    requires forall i :: 0 <= i < |h| ==> IsHexDigit(h[i])
    requires rest == "" || !IsHexDigit(rest[0])
    ensures HexRun(h + rest, acc) == HexRun(h, acc)
  {
    if h == "" {
      assert h + rest == rest;
    } else {
      assert (h + rest)[1..] == h[1..] + rest;
      RunStops(h[1..], rest, acc * 16 + HexValue(h[0]));
    }
  }

  /** Blanks, a plus sign and 0x are skipped, the digits are read, the rest is ignored. */
  lemma NumberIsRead(blanks: string, sign: string, prefix: string, h: string, rest: string)
    requires forall i :: 0 <= i < |blanks| ==> blanks[i] == ' ' || '\t' <= blanks[i] <= '\r'
    requires sign in {"", "+"} && prefix in {"", "0x", "0X"}
    requires h != "" && forall i :: 0 <= i < |h| ==> IsHexDigit(h[i])
    requires rest == "" || !IsHexDigit(rest[0])
    requires prefix == "" && h == "0" && rest != "" ==> rest[0] != 'x' && rest[0] != 'X'
    ensures StrToUL(blanks + (sign + (prefix + (h + rest)))) == Some(HexRun(h, 0))
  {
    hide HexRun, SkipSpace, StrToUL;
    var digits := h + rest;
    var number := prefix + digits;
    assert digits[0] == h[0];
    assert number[0] == if prefix == "" then digits[0] else '0';
    SignIsSkipped(blanks, sign, number);
    PrefixIsSkipped(prefix, h, rest);
    DigitsAreRead(number, digits);
    RunStops(h, rest, 0);
  }

  lemma SignIsSkipped(blanks: string, sign: string, number: string)
    requires forall i :: 0 <= i < |blanks| ==> blanks[i] == ' ' || '\t' <= blanks[i] <= '\r'
    requires sign in {"", "+"} && number != "" && IsHexDigit(number[0])
    ensures StrToUL(blanks + (sign + number)) == StrToUL(number)
  {
    hide HexRun, Digits;
    SkipBlanks(blanks, sign + number);
    SkipBlanks("", number);
    assert "" + number == number;
    if sign == "" {
      assert sign + number == number;
    } else {
      assert (sign + number)[1..] == number;
    }
  }

  lemma DigitsAreRead(number: string, digits: string)
    requires number != "" && IsHexDigit(number[0]) && digits != "" && IsHexDigit(digits[0])
    requires Digits(number) == digits
    ensures StrToUL(number) == Some(HexRun(digits, 0))
  {
    hide HexRun;
    SkipBlanks("", number);
    assert "" + number == number;
  }

  lemma PrefixIsSkipped(prefix: string, h: string, rest: string)
    requires prefix in {"", "0x", "0X"}
    requires h != "" && forall i :: 0 <= i < |h| ==> IsHexDigit(h[i])
    requires prefix == "" && h == "0" && rest != "" ==> rest[0] != 'x' && rest[0] != 'X'
    ensures Digits(prefix + (h + rest)) == h + rest
  {
    var digits := h + rest;
    assert digits[0] == h[0];
    if prefix == "" {
      assert prefix + digits == digits;
      if |h| > 1 {
        assert digits[1] == h[1];
      } else if rest != "" {
        assert digits[1] == rest[0] && h == [h[0]];
      }
    } else {
      var v := prefix + digits;
      assert v[0] == '0' && v[1] == prefix[1] && v[2] == digits[0] && v[2..] == digits;
    }
  }

  /** Without a digit after the blanks and the sign there is no number. */
  lemma NothingToRead(blanks: string, sign: string, rest: string)
    requires forall i :: 0 <= i < |blanks| ==> blanks[i] == ' ' || '\t' <= blanks[i] <= '\r'
    requires sign in {"", "+"}
    requires rest == "" || !IsHexDigit(rest[0])
    requires sign == "" && rest != "" ==> rest[0] != '+' && rest[0] != ' ' && !('\t' <= rest[0] <= '\r')
    ensures StrToUL(blanks + (sign + rest)).None?
  {
    if sign + rest == "" {
      OnlyBlanks(blanks);
      assert blanks + "" == blanks;
    } else {
      assert sign == "+" ==> (sign + rest)[1..] == rest;
      assert sign == "" ==> sign + rest == rest;
      SkipBlanks(blanks, sign + rest);
    }
  }

  lemma {:induction false} OnlyBlanks(blanks: string)
    requires forall i :: 0 <= i < |blanks| ==> blanks[i] == ' ' || '\t' <= blanks[i] <= '\r'
    ensures SkipSpace(blanks) == ""
  {
    if blanks != "" {
      OnlyBlanks(blanks[1..]);
    }
  }

  // ----- parsing -----

  function Pow256(k: nat): (p: nat)
    ensures p > 0
  {
    if k == 0 then 1 else 256 * Pow256(k - 1)
  }

  /** The big-endian number the parts spell, each a byte. */
  function BytesValue(parts: seq<string>): (r: Option<nat>)
    ensures r.Some? ==> r.value < Pow256(|parts|)
  {
    if parts == [] then Some(0)
    else
      var front := BytesValue(parts[..|parts| - 1]);
      var last := StrToUL(parts[|parts| - 1]);
      if front.Some? && last.Some? && last.value <= 0xFF then Some(front.value * 256 + last.value) else None
  }

  function ParsedAddress(s: string): Option<nat> {
    var parts := Split(NormalizeAddress(s), ':');
    if |parts| != 6 then None else BytesValue(parts)
  }

  lemma {:induction false} BadPartSpoils(parts: seq<string>, k: nat)
    requires k <= |parts| && BytesValue(parts[..k]).None?
    ensures BytesValue(parts).None?
    decreases |parts| - k
  {
    if k < |parts| {
      assert parts[..k + 1][..k] == parts[..k];
      BadPartSpoils(parts, k + 1);
    } else {
      assert parts[..k] == parts;
    }
  }

  method ParseBluetoothAddress(s: string) returns (r: Option<nat>)
    ensures r == ParsedAddress(s)
    ensures r.Some? ==> r.value < TWO_48
  {
    var parts := Split(NormalizeAddress(s), ':');
    if |parts| != 6 {
      return None;
    }
    var address: nat := 0;
    for i := 0 to 6
      invariant BytesValue(parts[..i]) == Some(address)
    {
      assert parts[..i + 1][..i] == parts[..i];
      var value := StrToUL(parts[i]);
      if value.None? || value.value > 0xFF {
        BadPartSpoils(parts, i + 1);
        return None;
      }
      address := address * 256 + value.value;
    }
    assert parts[..6] == parts;
    SixBytesBound();
    return Some(address);
  }

  lemma SixBytesBound()
    ensures Pow256(6) == TWO_48
  {
    assert Pow256(1) == 256;
    assert Pow256(2) == 65536;
    assert Pow256(3) == 16777216;
    assert Pow256(4) == 0x1_0000_0000;
  }

  lemma ParsedBelowTwo48(s: string)
    ensures ParsedAddress(s).Some? ==> ParsedAddress(s).value < TWO_48
    ensures ParsedAddress(NormalizeAddress(s)) == ParsedAddress(s)
  {
    SixBytesBound();
    NormalizeIdempotent(s);
  }

  // ----- formatting -----

  function HexChar(d: nat): (c: char)
    requires d < 16
    ensures IsUpperHex(c) && HexValue(c) == d
  {
    if d < 10 then '0' + d as char else 'A' + (d - 10) as char
  }

  /** A byte with uppercase digits, width two, filled with '0'. */
  function TwoHex(b: nat): (s: string)
    requires b < 256
    ensures |s| == 2 && IsUpperHex(s[0]) && IsUpperHex(s[1])
  {
    [HexChar(b / 16), HexChar(b % 16)]
  }

  /** `n` shifted right by `8 * bytes` bits. */
  function ShiftRight(n: nat, bytes: nat): nat {
    if bytes == 0 then n else ShiftRight(n, bytes - 1) / 256
  }

  /** The low `count` bytes of `n`, most significant first. */
  function FormattedBytes(n: nat, count: nat): (s: string)
    requires count > 0
    ensures |s| == 3 * count - 1
  {
    if count == 1 then TwoHex(n % 256)
    else FormattedBytes(n / 256, count - 1) + [':'] + TwoHex(n % 256)
  }

  method FormatBluetoothAddress(n: nat) returns (s: string)
    requires n < 0x1_0000_0000_0000_0000  // a uint64_t
    ensures s == FormattedBytes(n, 6)
  {
    s := "";
    var i := 5;
    while i >= 0
      invariant -1 <= i <= 5
      invariant i == 5 ==> s == ""
      invariant i < 5 ==> s == FormattedBytes(ShiftRight(n, i + 1), 5 - i)
    {
      if i < 5 {
        s := s + [':'];
      }
      s := s + TwoHex(ShiftRight(n, i) % 256);
      i := i - 1;
    }
  }

  // ----- round trips -----

  lemma TwoHexReadsBack(b: nat)
    requires b < 256
    ensures StrToUL(TwoHex(b)) == Some(b)
    ensures ':' !in TwoHex(b) && IsNormal(TwoHex(b))
  {
    var t := TwoHex(b);
    assert t[1..][1..] == "";
    assert HexRun(t[1..], HexValue(t[0])) == HexValue(t[0]) * 16 + HexValue(t[1]);
  }

  /** Appending one more formatted group appends its byte. */
  lemma SplitAnotherByte(front: string, last: string)
    requires |last| == 2 && ':' !in last
    ensures Split(front + [':'] + last, ':') == Split(front, ':') + [last]
    ensures StrToUL(last).Some? && StrToUL(last).value <= 0xFF && BytesValue(Split(front, ':')).Some? ==>
              BytesValue(Split(front + [':'] + last, ':'))
              == Some(BytesValue(Split(front, ':')).value * 256 + StrToUL(last).value)
  {
    SplitSnoc(front, ':', last, "");
    var parts := Split(front, ':') + [last];
    assert parts[..|parts| - 1] == Split(front, ':');
  }

  lemma SplitOneByte(last: string)
    requires |last| == 2 && ':' !in last
    ensures Split(last, ':') == [last]
    ensures StrToUL(last).Some? && StrToUL(last).value <= 0xFF ==> BytesValue(Split(last, ':')) == StrToUL(last)
  {
    SplitWord(last, ':', "");
    assert "" + last == last;
    assert [last][..|[last]| - 1] == [];
    assert BytesValue([]) == Some(0);
  }

  /** Reading back `count` formatted bytes gives the low `count` bytes. */
  lemma {:induction false} FormattedSplit(n: nat, count: nat)
    requires count > 0
    ensures |Split(FormattedBytes(n, count), ':')| == count
    ensures BytesValue(Split(FormattedBytes(n, count), ':')) == Some(LowBytes(n, count))
  {
    TwoHexReadsBack(n % 256);
    if count == 1 {
      SplitOneByte(TwoHex(n % 256));
      assert LowBytes(n / 256, 0) == 0;
    } else {
      FormattedSplit(n / 256, count - 1);
      SplitAnotherByte(FormattedBytes(n / 256, count - 1), TwoHex(n % 256));
    }
  }

  lemma {:induction false} FormattedIsNormal(n: nat, count: nat)
    requires count > 0
    ensures IsNormal(FormattedBytes(n, count))
  {
    TwoHexReadsBack(n % 256);
    if count > 1 {
      FormattedIsNormal(n / 256, count - 1);
    }
  }

  function LowBytes(n: nat, count: nat): nat {
    if count == 0 then 0 else LowBytes(n / 256, count - 1) * 256 + n % 256
  }

  lemma SixLowBytes(n: nat)
    ensures LowBytes(n, 6) == n % TWO_48
  {
    var a := n / 256;
    var b := a / 256;
    var c := b / 256;
    var d := c / 256;
    var e := d / 256;
    var f := e / 256;
    assert LowBytes(e, 1) == LowBytes(f, 0) * 256 + e % 256 == e % 256;
    assert LowBytes(d, 2) == LowBytes(e, 1) * 256 + d % 256;
    assert LowBytes(c, 3) == LowBytes(d, 2) * 256 + c % 256;
    assert LowBytes(b, 4) == LowBytes(c, 3) * 256 + b % 256;
    assert LowBytes(a, 5) == LowBytes(b, 4) * 256 + a % 256;
    assert n == TWO_48 * f + LowBytes(n, 6);
    assert 0 <= LowBytes(n, 6) < TWO_48;
  }

  /** Parsing a formatted number gives it back; of a wider number, its low 48 bits. */
  lemma ParseOfFormat(n: nat)
    ensures ParsedAddress(FormattedBytes(n, 6)) == Some(n % TWO_48)
  {
    ParseOfFormatAt(n, 6);
  }

  /** The formatted text is canonical, valid and already normal. */
  lemma FormatIsCanonical(n: nat)
    ensures NormalizeAddress(FormattedBytes(n, 6)) == FormattedBytes(n, 6)
    ensures Canonical(FormattedBytes(n, 6)) && IsValidAddress(FormattedBytes(n, 6))
  {
    ParseOfFormatAt(n, 6);
  }

  lemma ParseOfFormatAt(n: nat, count: nat)
    requires count == 6
    ensures ParsedAddress(FormattedBytes(n, count)) == Some(n % TWO_48)
    ensures NormalizeAddress(FormattedBytes(n, count)) == FormattedBytes(n, count)
    ensures Canonical(FormattedBytes(n, count)) && IsValidAddress(FormattedBytes(n, count))
  {
    FormattedSplit(n, count);
    FormattedIsNormal(n, count);
    NormalIsFixed(FormattedBytes(n, count));
    SixLowBytes(n);
    FormattedIsHexGroups(n, count);
    HexGroupsCanonical(FormattedBytes(n, count), count);
    CanonicalNormalIsValid(FormattedBytes(n, count));
  }

  /** `k` groups of two uppercase hex digits joined by colons. */
  predicate HexGroups(t: string, k: nat) {
    k > 0 && |t| == 3 * k - 1 && IsUpperHex(t[|t| - 2]) && IsUpperHex(t[|t| - 1])
    && (k == 1 || (t[|t| - 3] == ':' && HexGroups(t[..|t| - 3], k - 1)))
  }

  lemma {:induction false} FormattedIsHexGroups(n: nat, count: nat)
    requires count > 0
    ensures HexGroups(FormattedBytes(n, count), count)
  {
    if count > 1 {
      FormattedIsHexGroups(n / 256, count - 1);
      var t := FormattedBytes(n, count);
      assert t[..|t| - 3] == FormattedBytes(n / 256, count - 1);
    }
  }

  lemma {:induction false} HexGroupsCanonical(t: string, k: nat)
    requires HexGroups(t, k)
    ensures forall i :: 0 <= i < |t| ==> (t[i] == ':' <==> i % 3 == 2)
  {
    if k > 1 {
      HexGroupsCanonical(t[..|t| - 3], k - 1);
      forall i | 0 <= i < |t| ensures t[i] == ':' <==> i % 3 == 2 {
        if i < |t| - 3 {
          assert t[i] == t[..|t| - 3][i];
        }
      }
    }
  }

  function GroupsValue(t: string, k: nat): nat
    requires HexGroups(t, k)
  {
    var b := GroupByte(t[|t| - 2], t[|t| - 1]);
    if k == 1 then b else GroupsValue(t[..|t| - 3], k - 1) * 256 + b
  }

  function GroupByte(hi: char, lo: char): (b: nat)
    requires IsUpperHex(hi) && IsUpperHex(lo)
    ensures b < 256 && TwoHex(b) == [hi, lo]
  {
    assert HexChar(HexValue(hi)) == hi && HexChar(HexValue(lo)) == lo;
    HexValue(hi) * 16 + HexValue(lo)
  }

  lemma LastGroup(t: string, k: nat)
    requires HexGroups(t, k) && k > 1
    ensures t == t[..|t| - 3] + [':'] + TwoHex(GroupByte(t[|t| - 2], t[|t| - 1]))
  {
  }

  lemma {:induction false} GroupsParse(t: string, k: nat)
    requires HexGroups(t, k)
    ensures |Split(t, ':')| == k && BytesValue(Split(t, ':')) == Some(GroupsValue(t, k))
  {
    var b := GroupByte(t[|t| - 2], t[|t| - 1]);
    TwoHexReadsBack(b);
    if k == 1 {
      assert t == TwoHex(b);
      SplitOneByte(t);
    } else {
      LastGroup(t, k);
      GroupsParse(t[..|t| - 3], k - 1);
      SplitAnotherByte(t[..|t| - 3], TwoHex(b));
    }
  }

  /** Hex groups are what formatting their value writes. */
  lemma {:induction false} GroupsFormat(t: string, k: nat, v: nat)
    requires HexGroups(t, k) && v == GroupsValue(t, k)
    ensures FormattedBytes(v, k) == t
  {
    var b := GroupByte(t[|t| - 2], t[|t| - 1]);
    if k == 1 {
      assert v % 256 == b;
    } else {
      LastGroup(t, k);
      var u := GroupsValue(t[..|t| - 3], k - 1);
      GroupsFormat(t[..|t| - 3], k - 1, u);
      assert v / 256 == u && v % 256 == b;
    }
  }

  /**
   For an accepted text, formatting its value gives back the normal form
   exactly when that is six groups of two hex digits.
   */
  lemma FormatOfParse(s: string)
    requires ParsedAddress(s).Some?
    ensures FormattedBytes(ParsedAddress(s).value, 6) == NormalizeAddress(s) <==> HexGroups(NormalizeAddress(s), 6)
  {
    FormatOfParseAt(s, 6);
  }

  lemma FormatOfParseAt(s: string, count: nat)
    requires ParsedAddress(s).Some? && count == 6
    ensures FormattedBytes(ParsedAddress(s).value, count) == NormalizeAddress(s)
            <==> HexGroups(NormalizeAddress(s), count)
  {
    var n := ParsedAddress(s).value;
    FormattedIsHexGroups(n, count);
    if HexGroups(NormalizeAddress(s), count) {
      GroupsParse(NormalizeAddress(s), count);
      GroupsFormat(NormalizeAddress(s), count, n);
    }
  }

  /** Lenient parsing is stable: the formatted value of any accepted text parses to the same 48-bit value. */
  lemma ReparseOfFormat(s: string)
    requires ParsedAddress(s).Some?
    ensures ParsedAddress(s).value < TWO_48
    ensures ParsedAddress(FormattedBytes(ParsedAddress(s).value, 6)) == ParsedAddress(s)
  {
    var n := ParsedAddress(s).value;
    ParsedBelowTwo48(s);
    ParseOfFormat(n);
    SmallNumberIsItsLow48Bits(n);
  }

  lemma SmallNumberIsItsLow48Bits(n: nat)
    requires n < TWO_48
    ensures n % TWO_48 == n
  {
  }

  // ----- addresses inside device ids -----

  const MARKER: string := "Bluetooth#Bluetooth"
  const DEV_MARKER: string := "Dev_"

  /** The part after the `Bluetooth#Bluetooth` marker, up to the next dash. */
  function MarkedPart(id: string): Option<string> {
    var start := FindFrom(id, MARKER, 0);
    if start < 0 then None
    else
      var parts := Split(id[start + |MARKER|..], '-');
      if parts == [] then None else Some(parts[0])
  }

  lemma {:induction false} FirstPieceOf(part: string, sep: char, tail: string, cur: string)
    requires sep !in part && cur + part != "" && (tail == "" || tail[0] == sep)
    ensures SplitAcc(part + tail, sep, cur) != [] && SplitAcc(part + tail, sep, cur)[0] == cur + part
  {
    if part == "" {
      assert part + tail == tail && cur + part == cur;
    } else {
      assert (part + tail)[1..] == part[1..] + tail && cur + [part[0]] + part[1..] == cur + part;
      FirstPieceOf(part[1..], sep, tail, cur + [part[0]]);
    }
  }

  lemma {:induction false} SeparatorsDrop(seps: string, sep: char, t: string)
    requires forall i :: 0 <= i < |seps| ==> seps[i] == sep
    ensures Split(seps + t, sep) == Split(t, sep)
  {
    if seps == "" {
      assert seps + t == t;
    } else {
      assert (seps + t)[1..] == seps[1..] + t;
      SeparatorsDrop(seps[1..], sep, t);
      assert [] + Split(seps[1..] + t, sep) == Split(seps[1..] + t, sep);
    }
  }

  /** The marked part is what follows the first marker and any dashes, up to the next dash. */
  lemma MarkedPartIs(before: string, dashes: string, part: string, tail: string)
    requires var id := before + MARKER + dashes + part + tail;
             forall i :: 0 <= i < |before| ==> !OccursAt(id, MARKER, i)
    requires forall i :: 0 <= i < |dashes| ==> dashes[i] == '-'
    requires part != "" && '-' !in part && (tail == "" || tail[0] == '-')
    ensures MarkedPart(before + MARKER + dashes + part + tail) == Some(part)
  {
    var id := before + MARKER + dashes + part + tail;
    assert OccursAt(id, MARKER, |before|);
    assert id[|before| + |MARKER|..] == dashes + (part + tail);
    SeparatorsDrop(dashes, '-', part + tail);
    FirstPieceOf(part, '-', tail, "");
    assert "" + part == part;
  }

  /** Without a marker there is no marked part, nor with nothing but dashes after the first. */
  lemma NoMarkedPart(id: string, i: nat)
    requires i <= |id| && forall j :: 0 <= j < i ==> !OccursAt(id, MARKER, j)
    requires i == |id| || (OccursAt(id, MARKER, i) && forall j :: i + |MARKER| <= j < |id| ==> id[j] == '-')
    ensures MarkedPart(id).None?
  {
    if i < |id| {
      var suffix := id[i + |MARKER|..];
      SeparatorsDrop(suffix, '-', "");
      assert suffix + "" == suffix;
    }
  }

  predicate ParsesAt(s: string, i: int) {
    0 <= i <= |s| - 17 && ParsedAddress(s[i..i + 17]).Some?
  }

  /** The leftmost 17-character window that parses, normalised. */
  method FirstParsingWindow(s: string) returns (r: Option<string>)
    ensures r.None? ==> forall i :: !ParsesAt(s, i)
    ensures r.Some? ==> exists i :: ParsesAt(s, i) && (forall j :: 0 <= j < i ==> !ParsesAt(s, j))
                                    && r.value == NormalizeAddress(s[i..i + 17])
  {
    var i := 0;
    while i <= |s| - 17
      invariant 0 <= i
      invariant forall j :: 0 <= j < i ==> !ParsesAt(s, j)
    {
      var candidate := s[i..i + 17];
      var parsed := ParseBluetoothAddress(candidate);
      if parsed.Some? {
        assert ParsesAt(s, i);
        return Some(NormalizeAddress(candidate));
      }
      i := i + 1;
    }
    return None;
  }

  /** The first run of hex digits, at most `limit` long, in upper case. */
  function HexDigits(s: string, limit: nat): (h: string)
    ensures |h| <= limit && forall c :: c in h ==> IsUpperHex(c)
  {
    if s == "" then ""
    else if IsHexDigit(s[0]) then LeadingHex(s, limit)
    else HexDigits(s[1..], limit)
  }

  function LeadingHex(s: string, limit: nat): (h: string)
    ensures |h| <= limit && forall c :: c in h ==> IsUpperHex(c)
  {
    if s == "" || limit == 0 || !IsHexDigit(s[0]) then "" else [UpperChar(s[0])] + LeadingHex(s[1..], limit - 1)
  }

  /** The first twelve-digit run after the `Dev_` marker, if there is one. */
  function DevDigits(id: string): Option<string> {
    var start := FindFrom(id, DEV_MARKER, 0);
    if start < 0 then None
    else
      var h := HexDigits(id[start + |DEV_MARKER|..], 12);
      if |h| == 12 then Some(h) else None
  }

  lemma {:induction false} OthersSkipped(p: string, t: string, limit: nat)
    requires forall i :: 0 <= i < |p| ==> !IsHexDigit(p[i])
    ensures HexDigits(p + t, limit) == HexDigits(t, limit)
  {
    if p == "" {
      assert p + t == t;
    } else {
      assert (p + t)[1..] == p[1..] + t;
      OthersSkipped(p[1..], t, limit);
    }
  }

  lemma {:induction false} DigitsInOrder(h: string, rest: string, limit: nat)
    requires forall i :: 0 <= i < |h| ==> IsHexDigit(h[i])
    requires |h| == limit || (|h| < limit && (rest == "" || !IsHexDigit(rest[0])))
    ensures LeadingHex(h + rest, limit) == ToUpper(h)
  {
    if h == "" {
      assert h + rest == rest;
    } else {
      assert (h + rest)[1..] == h[1..] + rest;
      DigitsInOrder(h[1..], rest, limit - 1);
      assert ToUpper(h) == [UpperChar(h[0])] + ToUpper(h[1..]);
    }
  }

  /**
   The digits are those of the first run after the first `Dev_`, in their order, in
   capitals: the first twelve of them, or none if the run is shorter.
   */
  lemma DevDigitsAreTheRun(before: string, p: string, h: string, rest: string)
    requires var id := before + DEV_MARKER + p + h + rest;
             forall i :: 0 <= i < |before| ==> !OccursAt(id, DEV_MARKER, i)
    requires forall i :: 0 <= i < |p| ==> !IsHexDigit(p[i])
    requires forall i :: 0 <= i < |h| ==> IsHexDigit(h[i])
    requires |h| == 12 || (0 < |h| < 12 && (rest == "" || !IsHexDigit(rest[0]))) || (h == "" && rest == "")
    ensures DevDigits(before + DEV_MARKER + p + h + rest) == if |h| == 12 then Some(ToUpper(h)) else None
  {
    var id := before + DEV_MARKER + p + h + rest;
    assert OccursAt(id, DEV_MARKER, |before|);
    assert id[|before| + |DEV_MARKER|..] == p + (h + rest);
    OthersSkipped(p, h + rest, 12);
    if h != "" {
      assert (h + rest)[0] == h[0];
      DigitsInOrder(h, rest, 12);
    }
  }

  /** Without the marker there are no digits. */
  lemma NoDevDigits(id: string)
    requires forall i :: 0 <= i < |id| ==> !OccursAt(id, DEV_MARKER, i)
    ensures DevDigits(id).None?
  {
  }

  function Grouped(h: string, k: nat): string
    requires k > 0 && |h| == 2 * k
  {
    if k == 1 then h else Grouped(h[..2 * k - 2], k - 1) + [':'] + h[2 * k - 2..]
  }

  lemma {:induction false} HexRunSnoc(h: string, a: char, b: char, acc: nat)
    requires forall c :: c in h ==> IsUpperHex(c)
    requires IsUpperHex(a) && IsUpperHex(b)
    ensures HexRun(h + [a, b], acc) == HexRun(h, acc) * 256 + GroupByte(a, b)
  {
    if h == "" {
      assert h + [a, b] == [a, b];
      assert [a, b][1..] == [b];
      assert HexRun([b], acc * 16 + HexValue(a)) == (acc * 16 + HexValue(a)) * 16 + HexValue(b);
    } else {
      assert (h + [a, b])[1..] == h[1..] + [a, b];
      assert h[0] in h;
      HexRunSnoc(h[1..], a, b, acc * 16 + HexValue(h[0]));
    }
  }

  lemma AnotherByte(u: nat, b: nat)
    requires b < 256
    ensures (u * 256 + b) / 256 == u && (u * 256 + b) % 256 == b
  {
  }

  lemma FormattedSnoc(u: nat, b: nat, k: nat)
    requires b < 256 && k > 1
    ensures FormattedBytes(u * 256 + b, k) == FormattedBytes(u, k - 1) + [':'] + TwoHex(b)
  {
    hide TwoHex;
    AnotherByte(u, b);
  }

  lemma GroupedSnoc(front: string, a: char, b: char, k: nat)
    requires k > 1 && |front| == 2 * k - 2
    ensures Grouped(front + [a, b], k) == Grouped(front, k - 1) + [':'] + [a, b]
  {
    assert (front + [a, b])[..2 * k - 2] == front && (front + [a, b])[2 * k - 2..] == [a, b];
  }

  lemma OneGroup(a: char, b: char)
    requires IsUpperHex(a) && IsUpperHex(b)
    ensures Grouped([a, b], 1) == FormattedBytes(GroupByte(a, b), 1)
  {
    hide TwoHex, IsUpperHex;
  }

  /** Pairing up hex digits with colons is formatting the number they spell. */
  lemma {:induction false} GroupedIsFormatted(h: string, k: nat, v: nat)
    requires k > 0 && |h| == 2 * k && v == HexRun(h, 0)
    requires forall c :: c in h ==> IsUpperHex(c)
    ensures Grouped(h, k) == FormattedBytes(v, k)
  {
    hide TwoHex, HexChar, IsUpperHex, Grouped, FormattedBytes;
    var front, a, b := h[..2 * k - 2], h[2 * k - 2], h[2 * k - 1];
    assert h == front + [a, b];
    HexRunSnoc(front, a, b, 0);
    if k == 1 {
      assert front == "" && h == [a, b] && HexRun("", 0) == 0;
      OneGroup(a, b);
    } else {
      GroupedSnoc(front, a, b, k);
      GroupedIsFormatted(front, k - 1, HexRun(front, 0));
      FormattedSnoc(HexRun(front, 0), GroupByte(a, b), k);
    }
  }

  lemma GroupedStep(hex: string, i: nat)
    requires i + 2 <= |hex| && i % 2 == 0
    ensures Grouped(hex[..i + 2], i / 2 + 1)
            == (if i == 0 then "" else Grouped(hex[..i], i / 2) + [':']) + hex[i..i + 2]
  {
    assert hex[..i + 2][..i] == hex[..i] && hex[..i + 2][i..] == hex[i..i + 2];
  }

  method GroupHex(hex: string) returns (formatted: string)
    requires |hex| == 12 && forall c :: c in hex ==> IsUpperHex(c)
    ensures formatted == FormattedBytes(HexRun(hex, 0), 6)
  {
    hide FormattedBytes, HexRun, IsUpperHex, Grouped;
    formatted := "";
    var i := 0;
    while i < 12
      invariant 0 <= i <= 12 && i % 2 == 0
      invariant i == 0 ==> formatted == ""
      invariant i > 0 ==> formatted == Grouped(hex[..i], i / 2)
    {
      if i > 0 {
        formatted := formatted + [':'];
      }
      formatted := formatted + hex[i..i + 2];
      GroupedStep(hex, i);
      i := i + 2;
    }
    assert hex[..12] == hex;
    GroupedIsFormatted(hex, i / 2, HexRun(hex, 0));
  }

  /**
   Without a marked part the result is empty or a normalised text that parses,
   taken from the leftmost window that parses, in the id itself and then in
   its normal form, or else built from the digits after `Dev_`.
   */
  method ExtractAddressFromDeviceId(id: string) returns (r: string)
    ensures MarkedPart(id).Some? ==> r == NormalizeAddress(MarkedPart(id).value)
    ensures MarkedPart(id).None? ==> r == "" || (NormalizeAddress(r) == r && ParsedAddress(r).Some?)
    ensures MarkedPart(id).None? && (exists i :: ParsesAt(id, i)) ==>
              exists i :: ParsesAt(id, i) && (forall j :: 0 <= j < i ==> !ParsesAt(id, j))
                          && r == NormalizeAddress(id[i..i + 17])
    ensures MarkedPart(id).None? && (forall i :: !ParsesAt(id, i))
            && (exists i :: ParsesAt(NormalizeAddress(id), i)) ==>
              exists i :: ParsesAt(NormalizeAddress(id), i)
                          && (forall j :: 0 <= j < i ==> !ParsesAt(NormalizeAddress(id), j))
                          && r == NormalizeAddress(NormalizeAddress(id)[i..i + 17])
    ensures MarkedPart(id).None? && (forall i :: !ParsesAt(id, i))
            && (forall i :: !ParsesAt(NormalizeAddress(id), i)) ==>
              r == if DevDigits(id).Some? then FormattedBytes(HexRun(DevDigits(id).value, 0), 6) else ""
  {
    var start := FindFrom(id, MARKER, 0);
    if start >= 0 {
      var parts := Split(id[start + |MARKER|..], '-');
      if parts != [] {
        return NormalizeAddress(parts[0]);
      }
    }
    var direct := FirstParsingWindow(id);
    if direct.Some? {
      WindowNormalised(id, direct.value);
      return direct.value;
    }
    var normalised := FirstParsingWindow(NormalizeAddress(id));
    if normalised.Some? {
      WindowNormalised(NormalizeAddress(id), normalised.value);
      return normalised.value;
    }
    r := "";
    var devStart := FindFrom(id, DEV_MARKER, 0);
    if devStart >= 0 {
      var hex := HexDigits(id[devStart + |DEV_MARKER|..], 12);
      if |hex| == 12 {
        var formatted := GroupHex(hex);
        var parsed := ParseBluetoothAddress(formatted);
        ParseOfFormat(HexRun(hex, 0));
        FormatIsCanonical(HexRun(hex, 0));
        if parsed.Some? {
          r := formatted;
        }
      }
    }
  }

  lemma WindowNormalised(s: string, r: string)
    requires exists i :: ParsesAt(s, i) && r == NormalizeAddress(s[i..i + 17])
    ensures NormalizeAddress(r) == r && ParsedAddress(r).Some?
  {
    var i :| ParsesAt(s, i) && r == NormalizeAddress(s[i..i + 17]);
    NormalizeIdempotent(s[i..i + 17]);
  }

  /** A marked part is taken on trust: the result need not be an address at all. */
  lemma MarkedPartNeedNotParse(rest: string)
    requires rest != "" && '-' !in rest && |NormalizeAddress(rest)| < 5
    ensures MarkedPart(MARKER + rest) == Some(rest)
    ensures ParsedAddress(NormalizeAddress(rest)).None?
  {
    var id := MARKER + rest;
    assert OccursAt(id, MARKER, 0);
    assert id[|MARKER|..] == rest;
    SplitWord(rest, '-', "");
    assert "" + rest == rest;
    NormalizeIdempotent(rest);
    SplitCount(NormalizeAddress(rest), ':', "");
  }
}
