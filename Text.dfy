/**
 * The pieces of Go's standard library that the handlers rely on, stated over
 * `string` (a sequence of Unicode code points): strings.Split with a
 * one-character separator, strings.Contains, strings.ToLower, fmt's `%d`,
 * strconv.ParseInt / strconv.Atoi in base 10, the int32 conversion, and
 * encoding/hex.
 */
module Text {
  import opened Wrappers

  /** A Go `byte`. */
  type Byte = x: int | 0 <= x < 256

  const MinInt64: int := -0x8000_0000_0000_0000
  const MaxInt64: int := 0x7FFF_FFFF_FFFF_FFFF

  predicate IsInt64(x: int) { MinInt64 <= x <= MaxInt64 }

  // ---------------------------------------------------------------------
  // strings.Split(s, string(sep))

  /** The pieces of `s` between occurrences of `sep`; an empty `s` gives `[""]`. */
  function Split(s: string, sep: char): (parts: seq<string>)
    ensures |parts| >= 1
    decreases |s|
  {
    if s == [] then [""]
    else
      var rest := Split(s[1..], sep);
      if s[0] == sep then [""] + rest else [[s[0]] + rest[0]] + rest[1..]
  }

  /** strings.Join(parts, string(sep)). */
  function Join(parts: seq<string>, sep: char): string
    decreases |parts|
  {
    if |parts| == 0 then ""
    else if |parts| == 1 then parts[0]
    else parts[0] + [sep] + Join(parts[1..], sep)
  }

  /** Joining the pieces again with the separator gives back the string. */
  lemma {:induction false} JoinSplit(s: string, sep: char)
    ensures Join(Split(s, sep), sep) == s
    decreases |s|
  {
    if s != [] {
      var rest := Split(s[1..], sep);
      JoinSplit(s[1..], sep);
      if s[0] == sep {
        assert Split(s, sep) == [""] + rest;
        assert ([""] + rest)[1..] == rest;
      } else {
        var parts := Split(s, sep);
        assert parts == [[s[0]] + rest[0]] + rest[1..];
        if |rest| == 1 {
          assert parts == [[s[0]] + rest[0]];
        } else {
          assert parts[1..] == rest[1..];
          assert Join(rest, sep) == rest[0] + [sep] + Join(rest[1..], sep);
        }
      }
    }
  }

  /** No piece contains the separator. */
  lemma {:induction false} SplitPiecesHaveNoSeparator(s: string, sep: char)
    ensures forall i :: 0 <= i < |Split(s, sep)| ==> sep !in Split(s, sep)[i]
    decreases |s|
  {
    if s != [] {
      SplitPiecesHaveNoSeparator(s[1..], sep);
      var rest := Split(s[1..], sep);
      if s[0] != sep {
        var parts := Split(s, sep);
        forall i | 0 <= i < |parts| ensures sep !in parts[i] {
          if i == 0 {
            assert parts[0] == [s[0]] + rest[0];
          } else {
            assert parts[i] == rest[i];
          }
        }
      }
    }
  }

  /** A string without the separator is a single piece. */
  lemma {:induction false} SplitWithoutSeparator(s: string, sep: char)
    requires sep !in s
    ensures Split(s, sep) == [s]
    decreases |s|
  {
    if s != [] {
      assert sep !in s[1..];
      SplitWithoutSeparator(s[1..], sep);
      assert [s[0]] + s[1..] == s;
    }
  }

  /** The first separator of `a + [sep] + b` closes the first piece. */
  lemma {:induction false} SplitAtFirstSeparator(a: string, b: string, sep: char)
    requires sep !in a
    ensures Split(a + [sep] + b, sep) == [a] + Split(b, sep)
    decreases |a|
  {
    var s := a + [sep] + b;
    if a == [] {
      assert s[1..] == b;
    } else {
      assert s[1..] == a[1..] + [sep] + b;
      assert sep !in a[1..];
      SplitAtFirstSeparator(a[1..], b, sep);
      assert [a[0]] + a[1..] == a;
    }
  }

  // ---------------------------------------------------------------------
  // strings.Contains and strings.ToLower

  /** `sub` occurs in `s` starting at position `k`. */
  predicate OccursAt(s: string, sub: string, k: int)
  {
    0 <= k && k + |sub| <= |s| && s[k..k + |sub|] == sub
  }

  /** strings.Contains(s, sub), by scanning the start positions from the left. */
  predicate Contains(s: string, sub: string)
    decreases |s|
  {
    (|sub| <= |s| && s[..|sub|] == sub) || (|s| > 0 && Contains(s[1..], sub))
  }

  /** The scan finds `sub` exactly when it occurs somewhere in `s`. */
  lemma {:induction false} ContainsIffOccurs(s: string, sub: string)
    ensures Contains(s, sub) <==> exists k :: OccursAt(s, sub, k)
    decreases |s|
  {
    if |sub| <= |s| && s[..|sub|] == sub {
      assert OccursAt(s, sub, 0);
    }
    if |s| > 0 {
      ContainsIffOccurs(s[1..], sub);
      if Contains(s[1..], sub) {
        var k :| OccursAt(s[1..], sub, k);
        assert s[k + 1..k + 1 + |sub|] == s[1..][k..k + |sub|];
        assert OccursAt(s, sub, k + 1);
      }
      if exists k :: OccursAt(s, sub, k) {
        var k :| OccursAt(s, sub, k);
        if k > 0 {
          assert s[1..][k - 1..k - 1 + |sub|] == s[k..k + |sub|];
          assert OccursAt(s[1..], sub, k - 1);
          assert Contains(s[1..], sub);
        } else {
          assert s[..|sub|] == s[k..k + |sub|];
        }
        assert Contains(s, sub);
      }
    } else {
      if exists k :: OccursAt(s, sub, k) {
        var k :| OccursAt(s, sub, k);
        assert |sub| == 0 && s[..|sub|] == sub;
      }
    }
  }

  /** The empty string occurs in every string. */
  lemma ContainsEmpty(s: string)
    ensures Contains(s, "")
  {
    assert s[..0] == "";
  }

  /**
   * unicode.ToLower for the capitals of ASCII, Latin-1, basic Greek and basic
   * Cyrillic; every other character is left as it is.
   */
  function LowerChar(c: char): char
  {
    if 'A' <= c <= 'Z' then (c as int + 32) as char
    else if '\U{C0}' <= c <= '\U{DE}' && c != '\U{D7}' then (c as int + 32) as char
    else if '\U{391}' <= c <= '\U{3A9}' && c != '\U{3A2}' then (c as int + 32) as char
    else if '\U{410}' <= c <= '\U{42F}' then (c as int + 32) as char
    else if '\U{400}' <= c <= '\U{40F}' then (c as int + 80) as char
    else c
  }

  /** strings.ToLower, letter by letter. */
  function ToLower(s: string): string
  {
    seq(|s|, i requires 0 <= i < |s| => LowerChar(s[i]))
  }

  /** Lowering twice is lowering once, and the length never changes. */
  lemma ToLowerIdempotent(s: string)
    ensures |ToLower(s)| == |s|
    ensures ToLower(ToLower(s)) == ToLower(s)
  {
  }

  // ---------------------------------------------------------------------
  // fmt's %d and strconv's base-10 parsing

  predicate IsDigit(c: char) { '0' <= c <= '9' }

  predicate AllDigits(s: string) { forall i :: 0 <= i < |s| ==> IsDigit(s[i]) }

  function DigitChar(d: nat): char
    requires d < 10
  {
    ('0' as int + d) as char
  }

  /** The decimal digits of `n`, most significant first, without leading zeros. */
  function NatDigits(n: nat): string
    decreases n
  {
    if n < 10 then [DigitChar(n)] else NatDigits(n / 10) + [DigitChar(n % 10)]
  }

  /** fmt.Sprintf("%d", n). */
  function DecimalString(n: int): string
  {
    if n < 0 then "-" + NatDigits(-n) else NatDigits(n)
  }

  /** The number a non-empty run of decimal digits stands for. */
  function DigitsValue(s: string): nat
    requires AllDigits(s)
    decreases |s|
  {
    if s == [] then 0
    else DigitsValue(s[..|s| - 1]) * 10 + (s[|s| - 1] as int - '0' as int)
  }

  /** The syntax strconv accepts in base 10: an optional sign and at least one digit. */
  function SignedValue(s: string): Option<int>
  {
    if |s| > 0 && (s[0] == '+' || s[0] == '-') then
      if |s| > 1 && AllDigits(s[1..]) then
        var magnitude: int := DigitsValue(s[1..]);
        Some(if s[0] == '-' then -magnitude else magnitude)
      else None
    else if |s| > 0 && AllDigits(s) then Some(DigitsValue(s))
    else None
  }

  datatype NumError = ErrSyntax | ErrRange

  const MaxUint64: int := 0xFFFF_FFFF_FFFF_FFFF

  /** The index where the run of digits starting at `i` ends. */
  function RunEnd(u: string, i: nat): (r: nat)
    requires i <= |u|
    ensures i <= r <= |u|
    ensures forall j :: i <= j < r ==> IsDigit(u[j])
    ensures r < |u| ==> !IsDigit(u[r])
    decreases |u| - i
  {
    if i == |u| || !IsDigit(u[i]) then i else RunEnd(u, i + 1)
  }

  /** The number the leading run of digits of `u` stands for (0 when there is none). */
  function LeadingValue(u: string): nat
  {
    var k := RunEnd(u, 0);
    assert AllDigits(u[..k]);
    DigitsValue(u[..k])
  }

  /**
   * The digit loop of strconv.ParseUint(u, 10, 64) from index `i` with `n`
   * read so far: a non-digit is a syntax error, and the range error comes as
   * soon as the value read passes 2^64 - 1, before any later character is looked at.
   */
  function ScanDigits(u: string, i: nat, n: nat): Result<nat, NumError>
    requires i <= |u|
    decreases |u| - i
  {
    if i == |u| then Ok(n)
    else if !IsDigit(u[i]) then Err(ErrSyntax)
    else
      var n1 := n * 10 + (u[i] as int - '0' as int);
      if n1 > MaxUint64 then Err(ErrRange) else ScanDigits(u, i + 1, n1)
  }

  /** A longer run of digits is worth at least as much as its prefix. */
  lemma {:induction false} DigitsValuePrefix(u: string, i: nat, j: nat)
    requires i <= j <= |u| && AllDigits(u[..j])
    ensures AllDigits(u[..i]) && DigitsValue(u[..i]) <= DigitsValue(u[..j])
    decreases j - i
  {
    if i < j {
      assert u[..j][..j - 1] == u[..j - 1];
      assert AllDigits(u[..j - 1]);
      DigitsValuePrefix(u, i, j - 1);
    }
  }

  /** The digit loop from `i` on answers by the value of the whole leading run. */
  lemma {:induction false} ScanFrom(u: string, i: nat, n: nat)
    requires i <= |u| && AllDigits(u[..i]) && n == DigitsValue(u[..i]) && n <= MaxUint64
    ensures AllDigits(u[..RunEnd(u, i)])
    ensures ScanDigits(u, i, n) ==
      if DigitsValue(u[..RunEnd(u, i)]) > MaxUint64 then Err(ErrRange)
      else if RunEnd(u, i) < |u| then Err(ErrSyntax)
      else Ok(DigitsValue(u))
    decreases |u| - i
  {
    var r := RunEnd(u, i);
    forall j | 0 <= j < r
      ensures IsDigit(u[..r][j])
    {
      if j < i { assert u[..i][j] == u[j]; }
    }
    if i == |u| {
      assert u[..i] == u;
    } else if IsDigit(u[i]) {
      var n1 := n * 10 + (u[i] as int - '0' as int);
      var p := u[..i + 1];
      assert p[..i] == u[..i];
      forall j | 0 <= j < i + 1
        ensures IsDigit(p[j])
      {
        if j < i { assert u[..i][j] == u[j]; }
      }
      assert DigitsValue(p) == n1;
      if n1 > MaxUint64 {
        DigitsValuePrefix(u, i + 1, r);
      } else {
        ScanFrom(u, i + 1, n1);
      }
    }
  }

  /** strconv.ParseUint(u, 10, 64), its value kept only when there is no error. */
  function ParseUint64(u: string): (r: Result<nat, NumError>)
    ensures r == if u == "" then Err(ErrSyntax)
                 else if LeadingValue(u) > MaxUint64 then Err(ErrRange)
                 else if AllDigits(u) then Ok(DigitsValue(u))
                 else Err(ErrSyntax)
  {
    if u == "" then Err(ErrSyntax)
    else
      assert u[..0] == "";
      ScanFrom(u, 0, 0);
      assert RunEnd(u, 0) == |u| ==> u[..RunEnd(u, 0)] == u;
      ScanDigits(u, 0, 0)
  }

  /** For a text of digits only, the leading run is the whole text. */
  lemma LeadingValueOfDigits(u: string)
    ensures AllDigits(u) ==> LeadingValue(u) == DigitsValue(u)
  {
    if AllDigits(u) {
      var r := RunEnd(u, 0);
      assert r == |u|;
      assert u[..r] == u;
    }
  }

  /** The text after an optional leading sign. */
  function Unsigned(s: string): string
  {
    if |s| > 0 && (s[0] == '+' || s[0] == '-') then s[1..] else s
  }

  predicate Negative(s: string) { |s| > 0 && s[0] == '-' }

  /** The accepted syntax is a sign-stripped text that is a non-empty run of digits. */
  lemma SignedValueOfUnsigned(s: string)
    ensures SignedValue(s).Some? <==> Unsigned(s) != "" && AllDigits(Unsigned(s))
    ensures SignedValue(s).Some? ==>
      SignedValue(s).value == if Negative(s) then -(DigitsValue(Unsigned(s)) as int) else DigitsValue(Unsigned(s)) as int
  {
  }

  /**
   * strconv.ParseInt(s, 10, 64): strip one sign, parse the rest as unsigned,
   * then cut to the int64 range. A range error of the unsigned parse stays a
   * range error whatever follows the overflowing digits.
   */
  function ParseInt64(s: string): (r: Result<int, NumError>)
    ensures r.Ok? ==> IsInt64(r.value)
    ensures r.Ok? <==> SignedValue(s).Some? && IsInt64(SignedValue(s).value)
    ensures r.Ok? ==> r.value == SignedValue(s).value
    ensures r == Err(ErrRange) <==>
      LeadingValue(Unsigned(s)) > MaxUint64 || (SignedValue(s).Some? && !IsInt64(SignedValue(s).value))
    ensures r == Err(ErrSyntax) <==> SignedValue(s).None? && LeadingValue(Unsigned(s)) <= MaxUint64
  {
    SignedValueOfUnsigned(s);
    LeadingValueOfDigits(Unsigned(s));
    if s == "" then Err(ErrSyntax)
    else
      var neg := s[0] == '-';
      match ParseUint64(Unsigned(s))
      case Err(e) => Err(e)
      case Ok(un) =>
        if !neg && un >= 0x8000_0000_0000_0000 then Err(ErrRange)
        else if neg && un > 0x8000_0000_0000_0000 then Err(ErrRange)
        else Ok(if neg then -(un as int) else un as int)
  }

  /**
   * The value strconv.Atoi(s) returns on a 64-bit platform, kept even when
   * its error is ignored: 0 after a syntax error, the bound of the sign's
   * side after a range error. (Atoi's shortcut for texts under 19 characters
   * cannot overflow and agrees with ParseInt.)
   */
  function AtoiValue(s: string): (v: int)
    ensures IsInt64(v)
    ensures ParseInt64(s).Ok? ==> v == ParseInt64(s).value
    ensures ParseInt64(s) == Err(ErrSyntax) ==> v == 0
    ensures ParseInt64(s) == Err(ErrRange) ==> v == if Negative(s) then MinInt64 else MaxInt64
    ensures SignedValue(s).None? && LeadingValue(Unsigned(s)) <= MaxUint64 ==> v == 0
    ensures LeadingValue(Unsigned(s)) > MaxUint64 ==> v == if Negative(s) then MinInt64 else MaxInt64
    ensures SignedValue(s).Some? && SignedValue(s).value < MinInt64 ==> v == MinInt64
    ensures SignedValue(s).Some? && SignedValue(s).value > MaxInt64 ==> v == MaxInt64
  {
    match ParseInt64(s)
    case Ok(v) => v
    case Err(ErrSyntax) => 0
    case Err(ErrRange) => if Negative(s) then MinInt64 else MaxInt64
  }

  /** The leading run of digits is at least as long as any all-digit stretch from its start. */
  lemma {:induction false} RunEndPastDigits(u: string, i: nat, j: nat)
    requires i <= j <= |u| && forall k :: i <= k < j ==> IsDigit(u[k])
    ensures RunEnd(u, i) >= j
    decreases j - i
  {
    if i < j {
      RunEndPastDigits(u, i + 1, j);
    }
  }

  /** A prefix of digits worth more than 2^64 - 1 makes the leading run worth more too. */
  lemma OverflowingPrefix(u: string, k: nat)
    requires k <= |u| && AllDigits(u[..k]) && DigitsValue(u[..k]) > MaxUint64
    ensures LeadingValue(u) > MaxUint64
  {
    var r := RunEnd(u, 0);
    assert forall j :: 0 <= j < k ==> IsDigit(u[..k][j]);
    RunEndPastDigits(u, 0, k);
    var run := u[..r];
    assert AllDigits(run);
    assert run[..k] == u[..k];
    DigitsValuePrefix(run, k, r);
    assert run[..r] == run;
  }

  /**
   * Digits worth more than 2^64 - 1 make a range error whatever follows them,
   * so Atoi gives the bound on the sign's side even for "99999999999999999999x".
   */
  lemma OverflowBeforeSyntax(sign: string, digits: string, rest: string)
    requires sign == "" || sign == "+" || sign == "-"
    requires AllDigits(digits) && DigitsValue(digits) > MaxUint64
    ensures ParseInt64(sign + digits + rest) == Err(ErrRange)
    ensures AtoiValue(sign + digits + rest) == if sign == "-" then MinInt64 else MaxInt64
  {
    var s := sign + digits + rest;
    var u := digits + rest;
    assert digits != "";
    assert Unsigned(s) == u && (Negative(s) <==> sign == "-") by {
      if sign == "" { assert s == u; } else { assert s[1..] == u; }
    }
    assert u[..|digits|] == digits;
    OverflowingPrefix(u, |digits|);
  }

  lemma {:induction false} NatDigitsAreDigits(n: nat)
    ensures |NatDigits(n)| > 0 && AllDigits(NatDigits(n))
    ensures DigitsValue(NatDigits(n)) == n
    decreases n
  {
    if n >= 10 {
      NatDigitsAreDigits(n / 10);
      var s := NatDigits(n);
      assert s[..|s| - 1] == NatDigits(n / 10);
    }
  }

  /** Parsing what %d printed gives the number back. */
  lemma {:induction false} DecimalRoundTrip(n: int)
    ensures SignedValue(DecimalString(n)) == Some(n)
  {
    if n < 0 {
      var m := NatDigits(-n);
      NatDigitsAreDigits(-n);
      var t := "-" + m;
      assert t[0] == '-' && t[1..] == m;
      assert DecimalString(n) == t;
    } else {
      var m := NatDigits(n);
      NatDigitsAreDigits(n);
      assert IsDigit(m[0]);
      assert DecimalString(n) == m;
    }
  }

  /** Go's int32(x): keep the low 32 bits, read them as two's complement. */
  function Int32(x: int): (r: int)
    ensures -0x8000_0000 <= r < 0x8000_0000
    ensures (r - x) % 0x1_0000_0000 == 0
  {
    (x + 0x8000_0000) % 0x1_0000_0000 - 0x8000_0000
  }

  /** int32 conversion leaves values that already fit alone. */
  lemma Int32OfSmall(x: int)
    requires -0x8000_0000 <= x < 0x8000_0000
    ensures Int32(x) == x
  {
  }

  /** int32 conversion of MaxInt64 keeps its low 32 bits, all ones: -1. */
  lemma Int32OfMaxInt64()
    ensures Int32(MaxInt64) == -1
  {
  }

  // ---------------------------------------------------------------------
  // encoding/hex

  /** The lower-case hex digit for a nibble: 0-9, then a-f. */
  function HexDigit(k: nat): char
    requires k < 16
  {
    if k < 10 then ('0' as int + k) as char else ('a' as int + k - 10) as char
  }

  /** hex.EncodeToString: two lower-case digits per byte, high nibble first. */
  function HexEncode(b: seq<Byte>): (s: string)
    ensures |s| == 2 * |b|
    decreases |b|
  {
    if b == [] then [] else [HexDigit(b[0] / 16), HexDigit(b[0] % 16)] + HexEncode(b[1..])
  }

  predicate IsLowerHex(c: char) { '0' <= c <= '9' || 'a' <= c <= 'f' }

  /** The value of one hex digit; hex.DecodeString also accepts upper case. */
  function HexValue(c: char): (r: Option<nat>)
    ensures r.Some? ==> r.value < 16
  {
    if '0' <= c <= '9' then Some(c as int - '0' as int)
    else if 'a' <= c <= 'f' then Some(c as int - 'a' as int + 10)
    else if 'A' <= c <= 'F' then Some(c as int - 'A' as int + 10)
    else None
  }

  /** hex.DecodeString: fails on an odd length or a character that is not a hex digit. */
  function HexDecode(s: string): Option<seq<Byte>>
    decreases |s|
  {
    if |s| < 2 then (if s == [] then Some([]) else None)
    else
      var hi, lo, rest := HexValue(s[0]), HexValue(s[1]), HexDecode(s[2..]);
      if hi.Some? && lo.Some? && rest.Some? then Some([hi.value * 16 + lo.value] + rest.value)
      else None
  }

  /** Every character of an encoding is a lower-case hex digit. */
  lemma {:induction false} HexEncodeIsLowerHex(b: seq<Byte>)
    ensures forall i :: 0 <= i < |HexEncode(b)| ==> IsLowerHex(HexEncode(b)[i])
    decreases |b|
  {
    if b != [] {
      HexEncodeIsLowerHex(b[1..]);
      var s := HexEncode(b);
      forall i | 0 <= i < |s| ensures IsLowerHex(s[i]) {
        if i >= 2 {
          assert s[i] == HexEncode(b[1..])[i - 2];
        }
      }
    }
  }

  /** Decoding an encoding gives the bytes back. */
  lemma {:induction false} HexRoundTrip(b: seq<Byte>)
    ensures HexDecode(HexEncode(b)) == Some(b)
    decreases |b|
  {
    if b != [] {
      var s := HexEncode(b);
      HexRoundTrip(b[1..]);
      assert s[2..] == HexEncode(b[1..]);
      assert HexValue(s[0]) == Some(b[0] / 16);
      assert HexValue(s[1]) == Some(b[0] % 16);
      assert [b[0] / 16 * 16 + b[0] % 16] + b[1..] == b;
    }
  }
}
