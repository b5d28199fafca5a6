/**
 * The text the reporter produces: printf/iostream number formatting
 * (`%d`, `%x`, `%X`, `%08X`, the 8-digit HexDword helper) and the
 * splitting of a buffered report into single log lines.
 */
module Text {
  import opened Cstdint

  // ---------------------------------------------------------------------------
  // Digits

  /** The character for digit `d`, with upper- or lower-case letters above 9. */
  function DigitChar(d: nat, upper: bool): char
    requires d < 16
  {
    if d < 10 then ('0' as int + d) as char
    else if upper then ('A' as int + d - 10) as char
    else ('a' as int + d - 10) as char
  }

  /** A decimal digit, or a hex letter of the requested case. */
  predicate IsDigitOfCase(c: char, upper: bool)
  {
    '0' <= c <= '9' || (if upper then 'A' <= c <= 'F' else 'a' <= c <= 'f')
  }

  /** Every character is a decimal digit. */
  predicate IsDecimal(s: string)
  {
    forall k :: 0 <= k < |s| ==> '0' <= s[k] <= '9'
  }

  /** The value of a digit character of either case; 0 for any other character. */
  function DigitValue(c: char): nat
  {
    if '0' <= c <= '9' then c as int - '0' as int
    else if 'a' <= c <= 'f' then c as int - 'a' as int + 10
    else if 'A' <= c <= 'F' then c as int - 'A' as int + 10
    else 0
  }

  /** The shortest representation of `n` in `base`, as printf writes it ("0" for zero). */
  function Digits(n: nat, base: nat, upper: bool): (s: string)
    requires 2 <= base <= 16
    ensures |s| >= 1
    ensures forall i :: 0 <= i < |s| ==> IsDigitOfCase(s[i], upper) && DigitValue(s[i]) < base
    ensures DigitValue(s[0]) == 0 ==> n == 0
    decreases n
  {
    if n < base then
      DigitValueOfDigitChar(n, upper);
      [DigitChar(n, upper)]
    else
      DivSmaller(n, base);
      DivMod(n, base);
      Digits(n / base, base, upper) + [DigitChar(n % base, upper)]
  }

  /** The number a string of digits denotes in `base`, most significant first. */
  function ValueOf(s: string, base: nat): nat
  {
    if s == [] then 0 else ValueOf(s[..|s| - 1], base) * base + DigitValue(s[|s| - 1])
  }

  lemma DigitValueOfDigitChar(d: nat, upper: bool)
    requires d < 16
    ensures DigitValue(DigitChar(d, upper)) == d
  {
  }

  /** Appending a digit multiplies the value by the base and adds the digit. */
  lemma ValueOfAppend(front: string, c: char, base: nat)
    ensures ValueOf(front + [c], base) == ValueOf(front, base) * base + DigitValue(c)
  {
    assert (front + [c])[..|front|] == front;
  }

  /** Digits is injective: reading the digits back gives the number. */
  lemma {:induction false} ValueOfDigits(n: nat, base: nat, upper: bool)
    requires 2 <= base <= 16
    ensures ValueOf(Digits(n, base, upper), base) == n
    decreases n
  {
    if n < base {
      DigitValueOfDigitChar(n, upper);
      ValueOfAppend([], DigitChar(n, upper), base);
      assert [] + [DigitChar(n, upper)] == Digits(n, base, upper);
    } else {
      var q, r := n / base, n % base;
      DivSmaller(n, base);
      DivMod(n, base);
      var front := Digits(q, base, upper);
      assert Digits(n, base, upper) == front + [DigitChar(r, upper)];
      ValueOfDigits(q, base, upper);
      DigitValueOfDigitChar(r, upper);
      ValueOfAppend(front, DigitChar(r, upper), base);
      assert ValueOf(front, base) * base + r == q * base + r;
    }
  }

  lemma DivMod(n: nat, base: nat)
    requires base > 0
    ensures n == (n / base) * base + n % base
    ensures 0 <= n % base < base
  {
  }

  /** Dividing by a base of at least 2 makes a positive number smaller. */
  lemma DivSmaller(n: nat, base: nat)
    requires base >= 2 && n >= 1
    ensures n / base < n
  {
    DivMod(n, base);
  }

  /** A number below b * p leaves a quotient below p. */
  lemma DivBound(n: nat, b: nat, p: nat)
    requires b >= 1 && n < b * p
    ensures n / b < p
  {
    DivMod(n, b);
  }

  function Power(b: nat, k: nat): nat
  {
    if k == 0 then 1 else b * Power(b, k - 1)
  }

  /** A number below base^k needs at most k digits. */
  lemma {:induction false} DigitsLength(n: nat, base: nat, upper: bool, k: nat)
    requires 2 <= base <= 16 && 1 <= k && n < Power(base, k)
    ensures |Digits(n, base, upper)| <= k
    decreases k
  {
    if n >= base {
      assert Power(base, 1) == base;
      assert k > 1;
      DivSmaller(n, base);
      DivBound(n, base, Power(base, k - 1));
      DigitsLength(n / base, base, upper, k - 1);
    }
  }

  /** `n` copies of `c`. */
  function Repeat(c: char, n: nat): (s: string)
    ensures |s| == n && forall i :: 0 <= i < n ==> s[i] == c
  {
    if n == 0 then [] else Repeat(c, n - 1) + [c]
  }

  /** std::setw(width) with std::setfill(c) on a right-aligned field. */
  function PadLeft(s: string, width: nat, c: char): (r: string)
    ensures |r| == if |s| >= width then |s| else width
    ensures r[|r| - |s|..] == s
    ensures forall i :: 0 <= i < |r| - |s| ==> r[i] == c
  {
    if |s| >= width then s else Repeat(c, width - |s|) + s
  }

  /** Leading zeros do not change the value of a digit string. */
  lemma {:induction false} ValueOfLeadingZeros(z: nat, s: string, base: nat)
    ensures ValueOf(Repeat('0', z) + s, base) == ValueOf(s, base)
    decreases |s|, z
  {
    if s == [] {
      assert Repeat('0', z) + s == Repeat('0', z);
      if z > 0 {
        assert Repeat('0', z)[..z - 1] == Repeat('0', z - 1);
        ValueOfLeadingZeros(z - 1, [], base);
        assert Repeat('0', z - 1) + [] == Repeat('0', z - 1);
      }
    } else {
      var t := Repeat('0', z) + s;
      assert t[..|t| - 1] == Repeat('0', z) + s[..|s| - 1];
      ValueOfLeadingZeros(z, s[..|s| - 1], base);
    }
  }

  // ---------------------------------------------------------------------------
  // Number formats used by the reporter

  /** Decimal text of a natural number (`<<` on an int, `%d` of a non-negative value). */
  function NatToString(n: nat): (s: string)
    ensures |s| >= 1 && IsDecimal(s) && ValueOf(s, 10) == n
    ensures s[0] == '0' ==> s == "0"
  {
    ValueOfDigits(n, 10, false);
    Digits(n, 10, false)
  }

  /** `%d` of a cell: a minus sign before the digits of a negative value. */
  function IntToString(i: int): (s: string)
    ensures |s| >= 1 && (i < 0 <==> s[0] == '-')
    ensures i < 0 ==> |s| >= 2 && IsDecimal(s[1..]) && ValueOf(s[1..], 10) == -i
    ensures i >= 0 ==> IsDecimal(s) && ValueOf(s, 10) == i
  {
    if i < 0 then "-" + NatToString(-i) else NatToString(i)
  }

  /** `%x` (lower case) or `%X` (upper case) of a cell: its unsigned 32-bit value in hex. */
  function Hex(v: int, upper: bool): string
  {
    Digits(U32(v), 16, upper)
  }

  /** `%08X`: upper-case hex padded with zeros to at least 8 digits. */
  function Hex08(v: int): string
  {
    PadLeft(Hex(v, true), 8, '0')
  }

  /** The HexDword helper: `std::setw(8) << std::setfill('0') << std::hex` of a uint32_t. */
  function HexDword(v: int): string
  {
    PadLeft(Hex(v, false), 8, '0')
  }

  /** HexDword always writes exactly eight hex digits, and they denote the value modulo 2^32. */
  lemma HexDwordIsEightDigits(v: int)
    ensures |HexDword(v)| == 8
    ensures forall k :: 0 <= k < 8 ==> IsDigitOfCase(HexDword(v)[k], false)
    ensures ValueOf(HexDword(v), 16) == U32(v)
  {
    var d := Hex(v, false);
    assert Power(16, 8) == TWO_32;
    DigitsLength(U32(v), 16, false, 8);
    ValueOfDigits(U32(v), 16, false);
    ValueOfLeadingZeros(8 - |d|, d, 16);
  }

  /** The same for the `%08X` format. */
  lemma Hex08IsEightDigits(v: int)
    ensures |Hex08(v)| == 8
    ensures forall k :: 0 <= k < 8 ==> IsDigitOfCase(Hex08(v)[k], true)
    ensures ValueOf(Hex08(v), 16) == U32(v)
  {
    var d := Hex(v, true);
    assert Power(16, 8) == TWO_32;
    DigitsLength(U32(v), 16, true, 8);
    ValueOfDigits(U32(v), 16, true);
    ValueOfLeadingZeros(8 - |d|, d, 16);
  }

  // ---------------------------------------------------------------------------
  // Lines

  /** The text a stream holds after each line was written followed by std::endl or '\n'. */
  function Terminated(lines: seq<string>): string
  {
    if lines == [] then "" else Terminated(lines[..|lines| - 1]) + lines[|lines| - 1] + "\n"
  }

  /** The index of the first `c` in `s` at or after `from`, or |s| when there is none. */
  function FindFrom(s: string, c: char, from: nat): (k: nat)
    requires from <= |s|
    ensures from <= k <= |s|
    ensures k < |s| ==> s[k] == c
    ensures forall j :: from <= j < k ==> s[j] != c
    decreases |s| - from
  {
    if from == |s| then |s| else if s[from] == c then from else FindFrom(s, c, from + 1)
  }

  /**
   * The '\n'-terminated segments of `s`, in order, without their terminators.
   * Text after the last '\n' is not a segment.
   */
  function Segments(s: string): seq<string>
    decreases |s|
  {
    var k := FindFrom(s, '\n', 0);
    if k == |s| then [] else [s[..k]] + Segments(s[k + 1..])
  }

  /** The string a C function sees through `c_str()`: everything before the first NUL. */
  function CString(s: string): (r: string)
    ensures '\0' !in r && r <= s
    ensures |r| < |s| ==> s[|r|] == '\0'
  {
    s[..FindFrom(s, '\0', 0)]
  }

  lemma AppendAssoc<T>(a: seq<T>, b: seq<T>, c: seq<T>)
    ensures a + (b + c) == a + b + c
  {
  }

  lemma DropAppend<T>(a: seq<T>, b: seq<T>, k: nat)
    requires k <= |a|
    ensures (a + b)[k..] == a[k..] + b
  {
  }

  /** `s` is empty or ends with a line terminator. */
  predicate EndsLine(s: string)
  {
    s == [] || s[|s| - 1] == '\n'
  }

  /** A character that does not occur is found at the end. */
  lemma FindFromAbsent(s: string, c: char)
    requires c !in s
    ensures FindFrom(s, c, 0) == |s|
  {
  }

  /** The first `c` is where `c` occurs with none before it. */
  lemma FindFromFirst(s: string, c: char, k: nat)
    requires k < |s| && s[k] == c
    requires forall j :: 0 <= j < k ==> s[j] != c
    ensures FindFrom(s, c, 0) == k
  {
  }

  /** Appending text does not move the first occurrence of a character already present. */
  lemma FindFromPrefix(u: string, w: string, c: char)
    requires FindFrom(u, c, 0) < |u|
    ensures FindFrom(u + w, c, 0) == FindFrom(u, c, 0)
  {
    var ku := FindFrom(u, c, 0);
    assert (u + w)[ku] == c;
  }

  /** Splitting at the first terminator: the segment before it, then the segments after it. */
  lemma SegmentsCons(s: string, k: nat)
    requires k < |s| && s[k] == '\n'
    requires forall j :: 0 <= j < k ==> s[j] != '\n'
    ensures Segments(s) == [s[..k]] + Segments(s[k + 1..])
  {
    FindFromFirst(s, '\n', k);
  }

  /** A single terminated line is one segment. */
  lemma SegmentsOfLine(v: string)
    requires '\n' !in v
    ensures Segments(v + "\n") == [v]
  {
    var t := v + "\n";
    assert forall j :: 0 <= j < |v| ==> t[j] == v[j];
    SegmentsCons(t, |v|);
    assert t[..|v|] == v && t[|v| + 1..] == [];
    assert Segments([]) == [];
  }

  /** Appending one more terminated segment to complete lines adds exactly that segment. */
  lemma {:induction false} SegmentsAppendLine(u: string, v: string)
    requires EndsLine(u)
    requires '\n' !in v
    ensures Segments(u + v + "\n") == Segments(u) + [v]
    decreases |u|
  {
    if u == [] {
      assert u + v + "\n" == v + "\n";
      SegmentsOfLine(v);
      assert Segments(u) == [];
    } else {
      var w := v + "\n";
      var t := u + w;
      AppendAssoc(u, v, "\n");
      var ku := FindFrom(u, '\n', 0);
      assert ku < |u| by {
        assert u[|u| - 1] == '\n';
      }
      var rest := u[ku + 1..];
      assert Segments(t) == [u[..ku]] + Segments(rest + w) by {
        assert forall j :: 0 <= j < |u| ==> t[j] == u[j];
        SegmentsCons(t, ku);
        assert t[..ku] == u[..ku];
        DropAppend(u, w, ku + 1);
      }
      AppendAssoc(rest, v, "\n");
      assert Segments(u) == [u[..ku]] + Segments(rest) by {
        SegmentsCons(u, ku);
      }
      SegmentsAppendLine(rest, v);
      AppendAssoc([u[..ku]], Segments(rest), [v]);
    }
  }

  /** Text after the last terminator contributes no segment. */
  lemma {:induction false} SegmentsIgnoreTail(u: string, w: string)
    requires EndsLine(u)
    requires '\n' !in w
    ensures Segments(u + w) == Segments(u)
    decreases |u|
  {
    var t := u + w;
    if u == [] {
      assert t == w;
      FindFromAbsent(w, '\n');
      assert Segments(u) == [];
    } else {
      var ku := FindFrom(u, '\n', 0);
      assert u[|u| - 1] == '\n';
      assert ku < |u|;
      FindFromPrefix(u, w, '\n');
      assert t[..ku] == u[..ku];
      assert t[ku + 1..] == u[ku + 1..] + w;
      SegmentsIgnoreTail(u[ku + 1..], w);
    }
  }

  lemma TerminatedEndsLine(lines: seq<string>)
    ensures EndsLine(Terminated(lines))
  {
  }

  /** Writing lines that hold no '\n' and splitting the text again gives back the lines. */
  lemma {:induction false} SegmentsOfTerminated(lines: seq<string>)
    requires forall i :: 0 <= i < |lines| ==> '\n' !in lines[i]
    ensures Segments(Terminated(lines)) == lines
    decreases |lines|
  {
    if lines == [] {
      assert Segments("") == [];
    } else {
      var init := lines[..|lines| - 1];
      SegmentsOfTerminated(init);
      TerminatedEndsLine(init);
      SegmentsAppendLine(Terminated(init), lines[|lines| - 1]);
    }
  }

  /** Terminated distributes over concatenation of line lists. */
  lemma {:induction false} TerminatedAppend(a: seq<string>, b: seq<string>)
    ensures Terminated(a + b) == Terminated(a) + Terminated(b)
    decreases |b|
  {
    if b == [] {
      assert a + b == a;
    } else {
      var b' := b[..|b| - 1];
      assert (a + b)[..|a + b| - 1] == a + b';
      TerminatedAppend(a, b');
    }
  }

  /** A C string ends at the first NUL, whatever follows it. */
  lemma CStringStopsAtNul(u: string, w: string)
    ensures CString(u + "\0" + w) == CString(u)
  {
    var t := u + "\0" + w;
    var k := FindFrom(t, '\0', 0);
    var ku := FindFrom(u, '\0', 0);
    assert t[|u|] == '\0';
    assert forall j :: 0 <= j < |u| ==> t[j] == u[j];
    assert t[..k] == u[..ku];
  }

  /** A string with no NUL is its own C view. */
  lemma CStringOfPlain(s: string)
    requires '\0' !in s
    ensures CString(s) == s
  {
    FindFromAbsent(s, '\0');
  }

  /** A slice of a suffix is a slice of the whole, shifted. */
  lemma SliceOfSuffix<T>(s: seq<T>, begin: nat, i: nat, j: nat)
    requires begin <= |s| && i <= j <= |s| - begin
    ensures s[begin..][i..j] == s[begin + i..begin + j]
  {
    assert forall n :: 0 <= n < j - i ==> s[begin..][i..j][n] == s[begin + i + n];
  }
}
