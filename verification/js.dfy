/**
 * The slice of JavaScript semantics the application's handlers rely on:
 * optional (undefined) fields and truthiness, thrown errors, `String.prototype.trim`,
 * `startsWith`, `split` on one character, `includes`, `parseInt(s, 10)` and the
 * decimal rendering of integers (`toString`).
 */
module Js {

  /** `undefined` (None) or a value. */
  datatype Option<+T> = None | Some(value: T)

  /** A thrown `Error`. Handlers set `statusCode`; errors raised by the document store leave it unset. */
  datatype Thrown = Thrown(statusCode: Option<int>, message: string)

  /** What a handler does: responds with a value, or throws. */
  datatype Outcome<+T> = Ok(value: T) | Throw(error: Thrown)

  /** An error raised by a handler with an explicit HTTP status. */
  function Raise(status: int, message: string): Thrown
  {
    Thrown(Some(status), message)
  }

  /** An error raised by the store (validation, cast or duplicate key): no status code. */
  function StoreError(message: string): Thrown
  {
    Thrown(None, message)
  }

  /** `!!s` for an optional string: present and non-empty. */
  predicate TruthyStr(s: Option<string>)
  {
    s.Some? && s.value != ""
  }

  /** `!!n` for an optional integer: present and non-zero. */
  predicate TruthyNum(n: Option<int>)
  {
    n.Some? && n.value != 0
  }

  /** `a || b` on optional strings. */
  function OrStr(a: Option<string>, b: string): (r: string)
    ensures TruthyStr(a) ==> r == a.value
    ensures !TruthyStr(a) ==> r == b
  {
    if TruthyStr(a) then a.value else b
  }

  /** `s.findIndex(p)` (and `s.find(p)`, `findOne`): the first position whose element
    * satisfies `p`; None stands for -1 (undefined, null). */
  function FindIndex<T>(s: seq<T>, p: T -> bool): (r: Option<nat>)
    ensures r.Some? ==> r.value < |s| && p(s[r.value]) && forall k :: 0 <= k < r.value ==> !p(s[k])
    ensures r.None? ==> forall k :: 0 <= k < |s| ==> !p(s[k])
  {
    if s == [] then None
    else if p(s[0]) then Some(0)
    else match FindIndex(s[1..], p)
      case None => None
      case Some(k) => Some(k + 1)
  }

  // ---------------------------------------------------------------- whitespace and trim

  /** White space and line terminators removed by `trim`: tab, vertical tab, form feed,
    * the byte order mark, the space separators (space, NBSP, U+1680, U+2000 to U+200A,
    * U+202F, U+205F, U+3000), line feed, carriage return, U+2028 and U+2029. */
  predicate IsSpace(c: char)
  {
    c == '\t' || c == '\U{000B}' || c == '\U{000C}' || c == '\U{FEFF}'
    || c == ' ' || c == '\U{00A0}' || c == '\U{1680}' || ('\U{2000}' <= c <= '\U{200A}')
    || c == '\U{202F}' || c == '\U{205F}' || c == '\U{3000}'
    || c == '\n' || c == '\r' || c == '\U{2028}' || c == '\U{2029}'
  }

  /** Drops the leading white space: what is dropped is all white space, what is kept does not start with it. */
  function TrimStart(s: string): (r: string)
    ensures |r| <= |s| && r == s[|s| - |r|..]
    ensures forall i :: 0 <= i < |s| - |r| ==> IsSpace(s[i])
    ensures r == [] || !IsSpace(r[0])
  {
    if |s| > 0 && IsSpace(s[0]) then
      var r := TrimStart(s[1..]);
      assert forall i :: 1 <= i < |s| - |r| ==> s[i] == s[1..][i - 1];
      r
    else s
  }

  /** Drops the trailing white space. */
  function TrimEnd(s: string): (r: string)
    ensures |r| <= |s| && r == s[..|r|]
    ensures forall i :: |r| <= i < |s| ==> IsSpace(s[i])
    ensures r == [] || !IsSpace(r[|r| - 1])
  {
    if |s| > 0 && IsSpace(s[|s| - 1]) then TrimEnd(s[..|s| - 1]) else s
  }

  /** `s.trim()`. */
  function Trim(s: string): string
  {
    TrimEnd(TrimStart(s))
  }

  /** Every character is white space (the empty string included). */
  predicate Blank(s: string)
  {
    forall i :: 0 <= i < |s| ==> IsSpace(s[i])
  }

  /** A string trims to the empty string exactly when it is all white space. */
  lemma TrimEmptyIffBlank(s: string)
    ensures Trim(s) == "" <==> Blank(s)
  {
    var t := TrimStart(s);
    if t != [] {
      assert s[|s| - |t|] == t[0];
    }
  }

  /** Trimming is idempotent: a trimmed value (as the store keeps names) trims to itself. */
  lemma TrimIdempotent(s: string)
    ensures Trim(Trim(s)) == Trim(s)
  {
    var t := Trim(s);
    if t != [] {
      assert !IsSpace(TrimStart(s)[0]) by {
        assert TrimStart(s) != [];
      }
      assert t[0] == TrimStart(s)[0];
      assert TrimStart(t) == t;
      assert TrimEnd(t) == t;
    }
  }

  /** No white space at either end: exactly the strings `trim` leaves as they are. */
  predicate Trimmed(s: string)
  {
    s == [] || (!IsSpace(s[0]) && !IsSpace(s[|s| - 1]))
  }

  lemma TrimmedIff(s: string)
    ensures Trimmed(s) <==> Trim(s) == s
  {
    if Trimmed(s) && s != [] {
      assert TrimStart(s) == s;
      assert TrimEnd(s) == s;
    }
    if Trim(s) == s {
      TrimIsTrimmed(s);
    }
  }

  /** What `trim` returns is trimmed. */
  lemma TrimIsTrimmed(s: string)
    ensures Trimmed(Trim(s))
  {
    var t := TrimStart(s);
    var r := TrimEnd(t);
    if r != [] {
      assert r[0] == t[0];
    }
  }

  // ---------------------------------------------------------------- prefixes, split, includes

  /** `s.startsWith(p)`. */
  predicate StartsWith(s: string, p: string)
  {
    |p| <= |s| && s[..|p|] == p
  }

  /** `parts.join(sep)`. */
  function Join(parts: seq<string>, sep: char): string
    requires |parts| >= 1
  {
    if |parts| == 1 then parts[0] else parts[0] + [sep] + Join(parts[1..], sep)
  }

  /** `s.split(sep)` for a one-character separator: the pieces between separators, never none. */
  function Split(s: string, sep: char): (parts: seq<string>)
    ensures |parts| >= 1
    ensures forall k :: 0 <= k < |parts| ==> sep !in parts[k]
    ensures Join(parts, sep) == s
  {
    if s == [] then [""]
    else
      var rest := Split(s[1..], sep);
      if s[0] == sep then
        assert Join([""] + rest, sep) == [sep] + Join(rest, sep) by {
          assert ([""] + rest)[1..] == rest;
        }
        [""] + rest
      else
        var parts := [[s[0]] + rest[0]] + rest[1..];
        assert Join(parts, sep) == [s[0]] + Join(rest, sep) by {
          if |rest| > 1 {
            assert parts[1..] == rest[1..];
            assert Join(rest, sep) == rest[0] + [sep] + Join(rest[1..], sep);
          }
        }
        parts
  }

  /** Splitting a join of separator-free pieces gives the pieces back. */
  lemma {:induction false} SplitJoin(parts: seq<string>, sep: char)
    requires |parts| >= 1
    requires forall k :: 0 <= k < |parts| ==> sep !in parts[k]
    ensures Split(Join(parts, sep), sep) == parts
  {
    if |parts| == 1 {
      SplitNoSep(parts[0], sep);
    } else {
      SplitJoin(parts[1..], sep);
      SplitAfter(parts[0], sep, Join(parts[1..], sep));
    }
  }

  /** A separator-free string splits into itself. */
  lemma {:induction false} SplitNoSep(s: string, sep: char)
    requires sep !in s
    ensures Split(s, sep) == [s]
  {
    if s != [] {
      SplitNoSep(s[1..], sep);
    }
  }

  /** Splitting `a + sep + b`, where `a` has no separator, yields `a` then the pieces of `b`. */
  lemma {:induction false} SplitAfter(a: string, sep: char, b: string)
    requires sep !in a
    ensures Split(a + [sep] + b, sep) == [a] + Split(b, sep)
  {
    if a == [] {
      assert a + [sep] + b == [sep] + b;
      assert ([sep] + b)[1..] == b;
    } else {
      var s := a + [sep] + b;
      assert s[0] == a[0] && s[0] != sep;
      assert s[1..] == a[1..] + [sep] + b;
      SplitAfter(a[1..], sep, b);
      var rest := Split(s[1..], sep);
      assert rest == [a[1..]] + Split(b, sep);
      assert rest[0] == a[1..] && rest[1..] == Split(b, sep);
      assert [a[0]] + a[1..] == a;
      assert Split(s, sep) == [[s[0]] + rest[0]] + rest[1..];
    }
  }

  /** `sub` occurs in `s` at position `i`. */
  predicate OccursAt(s: string, sub: string, i: int)
  {
    0 <= i <= |s| - |sub| && s[i..i + |sub|] == sub
  }

  /** `s.includes(sub)`. */
  predicate Includes(s: string, sub: string)
  {
    exists i | 0 <= i <= |s| - |sub| :: OccursAt(s, sub, i)
  }

  /** `toLowerCase` on ASCII letters (other letters are kept as they are). */
  function LowerChar(c: char): char
  {
    if 'A' <= c <= 'Z' then (c as int + 32) as char else c
  }

  /** `s.toLowerCase()`, ASCII letters only. */
  function Lower(s: string): (r: string)
    ensures |r| == |s|
    ensures forall i :: 0 <= i < |s| ==> r[i] == LowerChar(s[i])
  {
    if s == [] then [] else [LowerChar(s[0])] + Lower(s[1..])
  }

  /** Lower-casing twice is lower-casing once (the store keeps e-mails lower-cased). */
  lemma LowerIdempotent(s: string)
    ensures Lower(Lower(s)) == Lower(s)
  {
  }

  /** A string without upper-case letters is its own lower-case form. */
  lemma LowerOfLowercase(s: string)
    requires forall i :: 0 <= i < |s| ==> !('A' <= s[i] <= 'Z')
    ensures Lower(s) == s
  {
  }

  // ---------------------------------------------------------------- numbers

  predicate IsDigit(c: char)
  {
    '0' <= c <= '9'
  }

  function DigitValue(c: char): (d: nat)
    requires IsDigit(c)
    ensures d < 10
  {
    (c - '0') as nat
  }

  function DigitChar(d: nat): (c: char)
    requires d < 10
    ensures IsDigit(c) && DigitValue(c) == d
  {
    ('0' as int + d) as char
  }

  /** The longest prefix of decimal digits. */
  function DigitPrefix(s: string): (d: string)
    ensures |d| <= |s| && d == s[..|d|]
    ensures forall i :: 0 <= i < |d| ==> IsDigit(d[i])
    ensures |d| == |s| || !IsDigit(s[|d|])
  {
    if |s| > 0 && IsDigit(s[0]) then [s[0]] + DigitPrefix(s[1..]) else []
  }

  /** The value of a string of decimal digits, most significant first. */
  function DigitsValue(d: string): nat
    requires forall i :: 0 <= i < |d| ==> IsDigit(d[i])
  {
    if d == [] then 0 else DigitsValue(d[..|d| - 1]) * 10 + DigitValue(d[|d| - 1])
  }

  /** `parseInt(s, 10)`: leading white space, an optional sign, then the longest run of digits;
    * None stands for NaN (no digit). Large values are exact (no floating-point rounding). */
  function ParseInt(s: string): Option<int>
  {
    var t := TrimStart(s);
    var negative := |t| > 0 && t[0] == '-';
    var body := if |t| > 0 && (t[0] == '-' || t[0] == '+') then t[1..] else t;
    var digits := DigitPrefix(body);
    if digits == [] then None
    else if negative then Some(-(DigitsValue(digits) as int))
    else Some(DigitsValue(digits))
  }

  /** What `parseInt` reads after the leading white space and an optional sign. */
  function SignedBody(s: string): string
  {
    var t := TrimStart(s);
    if |t| > 0 && (t[0] == '-' || t[0] == '+') then t[1..] else t
  }

  /** The body starts with "0x" or "0X": with no radix given, `parseInt` reads hexadecimal. */
  predicate HexMarked(s: string)
  {
    var b := SignedBody(s);
    |b| >= 2 && b[0] == '0' && (b[1] == 'x' || b[1] == 'X')
  }

  predicate IsHexDigit(c: char)
  {
    IsDigit(c) || 'a' <= c <= 'f' || 'A' <= c <= 'F'
  }

  function HexDigitValue(c: char): (d: nat)
    requires IsHexDigit(c)
    ensures d < 16
    ensures IsDigit(c) ==> d == DigitValue(c)
  {
    if IsDigit(c) then DigitValue(c)
    else if 'a' <= c <= 'f' then (c - 'a') as nat + 10
    else (c - 'A') as nat + 10
  }

  /** The longest prefix of hexadecimal digits. */
  function HexPrefix(s: string): (d: string)
    ensures |d| <= |s| && d == s[..|d|]
    ensures forall i :: 0 <= i < |d| ==> IsHexDigit(d[i])
    ensures |d| == |s| || !IsHexDigit(s[|d|])
  {
    if |s| > 0 && IsHexDigit(s[0]) then [s[0]] + HexPrefix(s[1..]) else []
  }

  /** The value of a string of hexadecimal digits, most significant first. */
  function HexValue(d: string): nat
    requires forall i :: 0 <= i < |d| ==> IsHexDigit(d[i])
  {
    if d == [] then 0 else HexValue(d[..|d| - 1]) * 16 + HexDigitValue(d[|d| - 1])
  }

  /** A minus sign after the leading white space. */
  predicate Negative(s: string)
  {
    var t := TrimStart(s);
    |t| > 0 && t[0] == '-'
  }

  /** `parseInt(s)` with no radix: as `parseInt(s, 10)`, except that a body starting with
    * "0x" or "0X" is read as the longest run of hexadecimal digits after it, NaN (None)
    * when there is none. */
  function ParseIntAuto(s: string): (r: Option<int>)
    ensures !HexMarked(s) ==> r == ParseInt(s)
    ensures HexMarked(s) ==> (r.None? <==> HexPrefix(SignedBody(s)[2..]) == [])
    ensures HexMarked(s) && r.Some? ==>
              r.value == if Negative(s) then -(HexValue(HexPrefix(SignedBody(s)[2..])) as int)
                         else HexValue(HexPrefix(SignedBody(s)[2..]))
  {
    if !HexMarked(s) then ParseInt(s)
    else
      var digits := HexPrefix(SignedBody(s)[2..]);
      if digits == [] then None
      else if Negative(s) then Some(-(HexValue(digits) as int))
      else Some(HexValue(digits))
  }

  /** A rendered integer never starts a hexadecimal body, so `parseInt` with or without
    * radix 10 reads it back the same. */
  lemma ParseIntAutoOfIntToString(n: int)
    ensures ParseIntAuto(IntToString(n)) == Some(n)
  {
    var s := IntToString(n);
    var digits := NatToString(if n < 0 then -n else n);
    assert s == if n < 0 then "-" + digits else digits;
    assert !IsSpace(s[0]);
    assert TrimStart(s) == s;
    assert SignedBody(s) == digits;
    assert |digits| >= 2 ==> IsDigit(digits[1]);
    assert !HexMarked(s);
    ParseIntOfIntToString(n);
  }

  /** "0x2" reads as 2 without a radix, and as 0 with radix 10. */
  lemma ParseIntAutoHex()
    ensures ParseIntAuto("0x2") == Some(2)
    ensures ParseInt("0x2") == Some(0)
  {
    var s := "0x2";
    assert !IsSpace(s[0]);
    assert TrimStart(s) == s && SignedBody(s) == s;
    assert s[2..] == "2";
    assert HexPrefix("2") == "2" by { assert "2"[1..] == []; }
    assert "2"[..0] == [];
    assert DigitPrefix(s) == "0" by { assert !IsDigit(s[1..][0]); }
    assert "0"[..0] == [];
  }

  /** "0x" has no hexadecimal digit after the marker: NaN. */
  lemma ParseIntAutoBareMarker()
    ensures ParseIntAuto("0x").None?
  {
    var s := "0x";
    assert !IsSpace(s[0]);
    assert TrimStart(s) == s && SignedBody(s) == s;
    assert s[2..] == [];
  }

  /** The decimal rendering of a natural number (no leading zeros). */
  function NatToString(n: nat): (s: string)
    ensures |s| >= 1
    ensures forall i :: 0 <= i < |s| ==> IsDigit(s[i])
  {
    if n < 10 then [DigitChar(n)] else NatToString(n / 10) + [DigitChar(n % 10)]
  }

  /** `n.toString()` for an integer. */
  function IntToString(n: int): string
  {
    if n < 0 then "-" + NatToString(-n) else NatToString(n)
  }

  /** Reading back a rendered natural number gives the number. */
  lemma {:induction false} DigitsValueOfNatToString(n: nat)
    ensures DigitsValue(NatToString(n)) == n
  {
    if n >= 10 {
      DigitsValueOfNatToString(n / 10);
      var s := NatToString(n);
      assert s[..|s| - 1] == NatToString(n / 10);
    }
  }

  /** A string of digits is its own digit prefix. */
  lemma {:induction false} DigitPrefixOfDigits(s: string)
    requires forall i :: 0 <= i < |s| ==> IsDigit(s[i])
    ensures DigitPrefix(s) == s
  {
    if s != [] {
      DigitPrefixOfDigits(s[1..]);
    }
  }

  /** `parseInt(String(n), 10) === n` for every integer. */
  lemma ParseIntOfIntToString(n: int)
    ensures ParseInt(IntToString(n)) == Some(n)
  {
    if n >= 0 {
      ParseIntOfNat(n);
    } else {
      var digits := NatToString(-n);
      DigitPrefixOfDigits(digits);
      DigitsValueOfNatToString(-n);
      var s := "-" + digits;
      assert IntToString(n) == s;
      assert TrimStart(s) == s by { assert !IsSpace(s[0]); }
      assert s[1..] == digits;
    }
  }

  /** `parseInt` reads back every rendered natural number. */
  lemma ParseIntOfNat(n: nat)
    ensures ParseInt(NatToString(n)) == Some(n)
  {
    ParseIntOfDigits(NatToString(n));
    DigitsValueOfNatToString(n);
  }

  /** A non-empty string of digits reads as its value. */
  lemma ParseIntOfDigits(s: string)
    requires |s| > 0 && forall i :: 0 <= i < |s| ==> IsDigit(s[i])
    ensures ParseInt(s) == Some(DigitsValue(s))
  {
    DigitPrefixOfDigits(s);
    assert !IsSpace(s[0]);
    assert TrimStart(s) == s;
  }

  lemma ParseIntOne()
    ensures ParseInt("1") == Some(1)
  {
    ParseIntOfDigits("1");
    assert "1"[..0] == [];
  }

  lemma ParseIntTwenty()
    ensures ParseInt("20") == Some(20)
  {
    ParseIntOfDigits("20");
    assert "20"[..1] == "2" && "2"[..0] == [];
  }

  /** Distinct integers render differently. */
  lemma IntToStringInjective(a: int, b: int)
    requires IntToString(a) == IntToString(b)
    ensures a == b
  {
    ParseIntOfIntToString(a);
    ParseIntOfIntToString(b);
  }
}
