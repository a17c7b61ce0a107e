/** How cgen turns arbitrary names into C identifiers, and why distinct things get distinct names. */
module Encoding {
  import opened Options

  predicate IsPlain(c: char) {
    'a' <= c <= 'z' || 'A' <= c <= 'Z' || '0' <= c <= '9'
  }

  predicate IsAscii(s: string) {
    forall i | 0 <= i < |s| :: s[i] < 128 as char
  }

  function HexDigit(d: nat): (c: char)
    requires d < 16
  {
    if d < 10 then '0' + d as char else 'A' + (d - 10) as char
  }

  function HexValue(c: char): (d: Option<nat>)
    ensures d.Some? ==> d.value < 16
  {
    if '0' <= c <= '9' then Some((c - '0') as int) else if 'A' <= c <= 'F' then Some((c - 'A') as int + 10) else None
  }

  function EncodeChar(c: char): string
    requires c < 128 as char
  {
    if IsPlain(c) then [c] else ['_', HexDigit(c as int / 16), HexDigit(c as int % 16), '_']
  }

  function Encoded(s: string): string
    requires IsAscii(s)
  {
    if s == "" then "" else EncodeChar(s[0]) + Encoded(s[1..])
  }

  /** Reads an encoded name back; none if the string is not one. */
  function Decode(e: string): Option<string>
    decreases |e|
  {
    if e == "" then Some("")
    else if IsPlain(e[0]) then Prepend(e[0], Decode(e[1..]))
    else if e[0] == '_' && |e| >= 4 && HexValue(e[1]).Some? && HexValue(e[2]).Some? && e[3] == '_'
    then Prepend((HexValue(e[1]).value * 16 + HexValue(e[2]).value) as char, Decode(e[4..]))
    else None
  }

  function Prepend(c: char, s: Option<string>): Option<string> {
    if s.Some? then Some([c] + s.value) else None
  }

  /** `encode`: fails, as the compiler does, on anything that is not ASCII. */
  method Encode(s: string) returns (e: Option<string>)
    ensures e == if IsAscii(s) then Some(Encoded(s)) else None
  {
    var buf := "";
    for i := 0 to |s|
      invariant IsAscii(s[..i]) && buf == Encoded(s[..i])
    {
      if s[i] >= 128 as char {
        return None;
      }
      EncodedConcat(s[..i], [s[i]]);
      assert s[..i + 1] == s[..i] + [s[i]];
      if IsPlain(s[i]) {
        buf := buf + [s[i]];
      } else {
        buf := buf + ['_', HexDigit(s[i] as int / 16), HexDigit(s[i] as int % 16), '_'];
      }
    }
    assert s[..|s|] == s;
    return Some(buf);
  }

  lemma {:induction false} EncodedConcat(a: string, b: string)
    requires IsAscii(a) && IsAscii(b)
    ensures Encoded(a + b) == Encoded(a) + Encoded(b)
    decreases |a|
  {
    if a == "" {
      assert a + b == b;
    } else {
      var head, middle := EncodeChar(a[0]), Encoded(a[1..]);
      assert (a + b)[1..] == a[1..] + b && (a + b)[0] == a[0];
      assert Encoded(a) == head + middle && Encoded(a + b) == head + Encoded(a[1..] + b);
      EncodedConcat(a[1..], b);
      hide *;
      Associative(head, middle, Encoded(b));
    }
  }

  lemma DecodeOne(c: char, tail: string)
    requires c < 128 as char
    ensures Decode(EncodeChar(c) + tail) == Prepend(c, Decode(tail))
  {
    var e := EncodeChar(c) + tail;
    if IsPlain(c) {
      assert e[0] == c && e[1..] == tail;
    } else {
      assert e[0] == '_' && e[3] == '_' && e[4..] == tail;
      assert HexValue(e[1]) == Some(c as int / 16) && HexValue(e[2]) == Some(c as int % 16);
    }
  }

  function Prefixed(s: string, r: Option<string>): Option<string> {
    if r.Some? then Some(s + r.value) else None
  }

  lemma PrefixedCons(c: char, s: string, r: Option<string>)
    ensures Prefixed([c] + s, r) == Prepend(c, Prefixed(s, r))
  {
    if r.Some? { Associative([c], s, r.value); }
  }

  lemma Associative(a: string, b: string, c: string)
    ensures a + (b + c) == (a + b) + c
  {
  }

  /** Decoding goes through an encoded name and on with what follows it. */
  lemma {:induction false} DecodesThrough(s: string, rest: string)
    requires IsAscii(s)
    ensures Decode(Encoded(s) + rest) == Prefixed(s, Decode(rest))
    decreases |s|
  {
    if s == "" {
      assert Encoded(s) + rest == rest;
      assert Decode(rest).Some? ==> s + Decode(rest).value == Decode(rest).value;
    } else {
      assert Encoded(s) == EncodeChar(s[0]) + Encoded(s[1..]);
      assert s == [s[0]] + s[1..];
      DecodesThrough(s[1..], rest);
      hide *;
      Associative(EncodeChar(s[0]), Encoded(s[1..]), rest);
      DecodeOne(s[0], Encoded(s[1..]) + rest);
      PrefixedCons(s[0], s[1..], Decode(rest));
    }
  }

  /** `encode` has a left inverse, so it never maps two names to one identifier. */
  lemma EncodingIsReversible(s: string)
    requires IsAscii(s)
    ensures Decode(Encoded(s)) == Some(s)
  {
    assert Decode("") == Some("");
    assert Prefixed(s, Some("")) == Some(s + "");
    hide *;
    DecodesThrough(s, "");
    assert Encoded(s) + "" == Encoded(s) && s + "" == s;
  }

  lemma EncodingIsInjective(a: string, b: string)
    requires IsAscii(a) && IsAscii(b)
    ensures Encoded(a) == Encoded(b) <==> a == b
  {
    EncodingIsReversible(a);
    EncodingIsReversible(b);
  }

  /** The suffix put on the resume function of a bound method occurs in no encoded name. */
  lemma ReturnNamesAreFree(s: string, t: string)
    requires IsAscii(s) && IsAscii(t)
    ensures Encoded(s) != Encoded(t) + "_return"
  {
    EncodingIsReversible(s);
    DecodesThrough(t, "_return");
  }

  lemma {:induction false} EncodedAlphabet(s: string)
    requires IsAscii(s)
    ensures forall c | c in Encoded(s) :: IsPlain(c) || c == '_'
  {
    if s != "" {
      EncodedAlphabet(s[1..]);
    }
  }

  // ----- what encoding is for

  /** By its ASCII code: a small letter, a capital or a digit. */
  predicate IsLetterOrDigit(c: char) {
    97 <= c as int <= 122 || 65 <= c as int <= 90 || 48 <= c as int <= 57
  }

  lemma PlainMeans(c: char)
    ensures IsPlain(c) <==> IsLetterOrDigit(c)
  {
  }

  /** An encoded name is made of what C allows in an identifier: letters, digits and underscores. */
  lemma EncodedIsIdentifier(s: string)
    requires IsAscii(s)
    ensures forall c | c in Encoded(s) :: IsLetterOrDigit(c) || c == '_'
  {
    EncodedAlphabet(s);
    forall c | c in Encoded(s) ensures IsLetterOrDigit(c) || c == '_' { PlainMeans(c); }
  }

  const HEX_DIGITS := "0123456789ABCDEF"

  /** A letter or digit stands for itself. Any other character becomes its code, two hexadecimal digits,
      between underscores. */
  lemma CharacterBecomes(c: char)
    requires c < 128 as char
    ensures EncodeChar(c) == if IsLetterOrDigit(c) then [c]
                             else ['_', HEX_DIGITS[c as int / 16], HEX_DIGITS[c as int % 16], '_']
  {
    PlainMeans(c);
    HexDigitIs(c as int / 16);
    HexDigitIs(c as int % 16);
  }

  lemma HexDigitIs(d: nat)
    requires d < 16
    ensures HexDigit(d) == HEX_DIGITS[d]
  {
  }

  /** Character by character, in order. */
  lemma {:induction false} EncodedInOrder(s: string, i: nat)
    requires IsAscii(s) && i < |s|
    ensures Encoded(s) == Encoded(s[..i]) + EncodeChar(s[i]) + Encoded(s[i + 1..])
  {
    EncodedConcat(s[..i], s[i..]);
    assert s == s[..i] + s[i..] && s[i..][1..] == s[i + 1..];
    assert Encoded(s[i..]) == EncodeChar(s[i]) + Encoded(s[i + 1..]);
    hide *;
    Associative(Encoded(s[..i]), EncodeChar(s[i]), Encoded(s[i + 1..]));
  }

  /** A text of letters and digits is left as it is. */
  lemma {:induction false} PlainTextIsKept(s: string)
    requires forall i | 0 <= i < |s| :: IsLetterOrDigit(s[i])
    ensures IsAscii(s) && Encoded(s) == s
  {
    forall i | 0 <= i < |s| ensures s[i] < 128 as char && IsPlain(s[i]) { PlainMeans(s[i]); }
    if s != "" {
      PlainTextIsKept(s[1..]);
      assert s == [s[0]] + s[1..];
    }
  }

  // ----- decimal numbers and separators

  function Decimal(n: nat): (s: string)
    ensures s != "" && forall c | c in s :: '0' <= c <= '9'
  {
    if n < 10 then ['0' + n as char] else Decimal(n / 10) + ['0' + (n % 10) as char]
  }

  lemma {:induction false} DecimalIsInjective(m: nat, n: nat)
    requires Decimal(m) == Decimal(n)
    ensures m == n
    decreases m
  {
    var s, t := Decimal(m), Decimal(n);
    assert s[|s| - 1] == t[|t| - 1];
    if m >= 10 && n >= 10 {
      assert Decimal(m / 10) == s[..|s| - 1] == t[..|t| - 1] == Decimal(n / 10);
      DecimalIsInjective(m / 10, n / 10);
    }
  }

  function FirstIndex(s: string, c: char): (i: nat)
    ensures i <= |s| && (i < |s| ==> s[i] == c) && c !in s[..i]
  {
    if s == "" || s[0] == c then 0 else 1 + FirstIndex(s[1..], c)
  }

  lemma {:induction false} FirstIndexIs(x: string, y: string, c: char)
    requires c !in x
    ensures FirstIndex(x + ([c] + y), c) == |x|
    decreases |x|
  {
    var s := x + ([c] + y);
    if x != "" {
      assert s[0] == x[0] && s[1..] == x[1..] + ([c] + y);
      FirstIndexIs(x[1..], y, c);
    }
  }

  /** What comes before the first separator is determined, and so is what comes after it. */
  lemma SplitsOnce(x: string, y: string, x': string, y': string, c: char)
    requires x + ([c] + y) == x' + ([c] + y') && c !in x && c !in x'
    ensures x == x' && y == y'
  {
    var s := x + ([c] + y);
    FirstIndexIs(x, y, c);
    FirstIndexIs(x', y', c);
    assert s[..|x|] == x && s[..|x'|] == x';
    assert s[|x| + 1..] == y && s[|x'| + 1..] == y';
  }

  // ----- labels

  /** The C functions of a program: of an instruction, a block, and a whole function. */
  datatype Label =
    | InstructionLabel(index: nat, block: nat, fn: string)
    | BlockLabel(block: nat, fn: string)
    | FunctionLabel(fn: string)

  function RawLabel(l: Label): string {
    match l
    case InstructionLabel(index, block, fn) => "i$" + (Decimal(index) + (['$'] + (Decimal(block) + (['$'] + fn))))
    case BlockLabel(block, fn) => "b$" + (Decimal(block) + (['$'] + fn))
    case FunctionLabel(fn) => "f$" + fn
  }

  /** A label's name determines the kind of label, the index, the block and the function. */
  lemma LabelsAreUnique(l: Label, m: Label)
    requires IsAscii(RawLabel(l)) && IsAscii(RawLabel(m))
    ensures Encoded(RawLabel(l)) == Encoded(RawLabel(m)) <==> l == m
  {
    EncodingIsInjective(RawLabel(l), RawLabel(m));
    if RawLabel(l) == RawLabel(m) {
      var s, t := RawLabel(l), RawLabel(m);
      assert s[0] == t[0];
      assert s[2..] == t[2..];
      match (l, m) {
        case (InstructionLabel(i, b, f), InstructionLabel(j, c, g)) =>
          SplitsOnce(Decimal(i), Decimal(b) + (['$'] + f), Decimal(j), Decimal(c) + (['$'] + g), '$');
          SplitsOnce(Decimal(b), f, Decimal(c), g, '$');
          DecimalIsInjective(i, j);
          DecimalIsInjective(b, c);
        case (BlockLabel(b, f), BlockLabel(c, g)) =>
          SplitsOnce(Decimal(b), f, Decimal(c), g, '$');
          DecimalIsInjective(b, c);
        case _ =>
      }
    }
  }
}
