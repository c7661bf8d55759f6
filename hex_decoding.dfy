/**
 * The byte-array helpers of the site's snap utilities.
 *
 * `hex_to_int_array` collects the non-overlapping pieces that the global,
 * case-insensitive pattern `[0-9a-z]{2}` matches, left to right, and reads each
 * one with `parseInt(_, 16)`; it yields `null` when nothing matches.
 * `resource_address_to_int_array` first removes the first occurrence of
 * `resource_` and then decodes what is left.
 *
 * `null` is modelled as `None` for the whole array and `NaN` as `None` for an
 * element, so a decoded array has type `Option<seq<Option<int>>>`.
 */
module HexDecoding {
  import opened Wrappers

  // ---------------------------------------------------------------------------
  // Characters

  /** The class `[0-9a-z]` under the `i` flag: digits and ASCII letters of either case. */
  predicate IsAlnum(c: char) {
    '0' <= c <= '9' || 'a' <= c <= 'z' || 'A' <= c <= 'Z'
  }

  /** A radix-16 digit as `parseInt` reads it. */
  predicate IsHexDigit(c: char) {
    '0' <= c <= '9' || 'a' <= c <= 'f' || 'A' <= c <= 'F'
  }

  function DigitValue(c: char): (v: nat)
    requires IsHexDigit(c)
    ensures v < 16
  {
    if '0' <= c <= '9' then c as int - '0' as int
    else if 'a' <= c <= 'f' then c as int - 'a' as int + 10
    else c as int - 'A' as int + 10
  }

  /** ASCII lower-casing of one character; any other character is left as it is. */
  function LowerChar(c: char): char {
    if 'A' <= c <= 'Z' then (c as int + 32) as char else c
  }

  /** The two strings differ at most in the case of ASCII letters. */
  predicate SameUpToCase(a: string, b: string) {
    |a| == |b| && forall k :: 0 <= k < |a| ==> LowerChar(a[k]) == LowerChar(b[k])
  }

  lemma CharUpToCase(c: char, d: char)
    requires LowerChar(c) == LowerChar(d)
    ensures IsAlnum(c) == IsAlnum(d) && IsHexDigit(c) == IsHexDigit(d)
    ensures IsHexDigit(c) ==> DigitValue(c) == DigitValue(d)
    ensures (c == '0') == (d == '0') && (c == 'x' || c == 'X') == (d == 'x' || d == 'X')
  {
  }

  // ---------------------------------------------------------------------------
  // The pattern scan

  /** A piece the pattern matches: two characters of the class. */
  predicate IsToken(t: string) {
    |t| == 2 && IsAlnum(t[0]) && IsAlnum(t[1])
  }

  /** The pattern matches at index `j` of `s`. */
  predicate PairAt(s: string, j: int) {
    0 <= j && j + 1 < |s| && IsAlnum(s[j]) && IsAlnum(s[j + 1])
  }

  /**
   * The pieces that `s.match(/[0-9a-z]{2}/gi)` collects from index `i` on: a pair
   * at `i` is taken and the scan resumes after it; otherwise the scan moves on
   * by one character. A last character without a partner is never taken.
   */
  function Scan(s: string, i: nat): (tokens: seq<string>)
    requires i <= |s|
    ensures |tokens| <= (|s| - i) / 2
    ensures forall k :: 0 <= k < |tokens| ==> IsToken(tokens[k])
    decreases |s| - i
  {
    if PairAt(s, i) then [s[i..i + 2]] + Scan(s, i + 2)
    else if i < |s| then Scan(s, i + 1)
    else []
  }

  /** The leftmost index at or after `i` where the pattern matches. */
  function FirstPairFrom(s: string, i: nat): (p: Option<nat>)
    requires i <= |s|
    ensures p.Some? ==> i <= p.value && PairAt(s, p.value)
    ensures p.Some? ==> forall j :: i <= j < p.value ==> !PairAt(s, j)
    ensures p.None? ==> forall j :: i <= j ==> !PairAt(s, j)
    decreases |s| - i
  {
    if PairAt(s, i) then Some(i)
    else if i < |s| then FirstPairFrom(s, i + 1)
    else None
  }

  /**
   * Reference semantics of a global match: find the leftmost match at or after
   * `lastIndex`, record it, and continue from the end of that match.
   */
  function GlobalMatch(s: string, lastIndex: nat): (matches: seq<string>)
    requires lastIndex <= |s|
    ensures forall k :: 0 <= k < |matches| ==> IsToken(matches[k])
    decreases |s| - lastIndex
  {
    match FirstPairFrom(s, lastIndex)
    case None => []
    case Some(p) => [s[p..p + 2]] + GlobalMatch(s, p + 2)
  }

  /** The character scan collects exactly the leftmost, non-overlapping matches, in order. */
  lemma {:induction false} ScanIsGlobalMatch(s: string, i: nat)
    requires i <= |s|
    ensures Scan(s, i) == GlobalMatch(s, i)
    decreases |s| - i
  {
    if PairAt(s, i) {
      ScanIsGlobalMatch(s, i + 2);
    } else if i < |s| {
      ScanIsGlobalMatch(s, i + 1);
    }
  }

  /** The scan finds nothing exactly when no two adjacent characters are both in the class. */
  lemma {:induction false} ScanEmptyIff(s: string, i: nat)
    requires i <= |s|
    ensures Scan(s, i) == [] <==> forall j :: i <= j ==> !PairAt(s, j)
    decreases |s| - i
  {
    if !PairAt(s, i) && i < |s| {
      ScanEmptyIff(s, i + 1);
    }
  }

  /** On a run of class characters the scan cuts consecutive pairs and drops an odd last one. */
  lemma {:induction false} ScanAllAlnum(s: string, i: nat)
    requires i <= |s|
    requires forall k :: i <= k < |s| ==> IsAlnum(s[k])
    ensures |Scan(s, i)| == (|s| - i) / 2
    ensures forall k :: 0 <= k < |Scan(s, i)| ==> Scan(s, i)[k] == s[i + 2 * k..i + 2 * k + 2]
    decreases |s| - i
  {
    if PairAt(s, i) {
      ScanAllAlnum(s, i + 2);
      var rest := Scan(s, i + 2);
      forall k | 0 <= k < |Scan(s, i)|
        ensures Scan(s, i)[k] == s[i + 2 * k..i + 2 * k + 2]
      {
        if k > 0 {
          assert Scan(s, i)[k] == rest[k - 1];
        }
      }
    } else if i < |s| {
      assert Scan(s, i + 1) == [];
    }
  }

  /** Scanning two strings that differ only in letter case gives pieces that differ only in case. */
  lemma {:induction false} ScanUpToCase(a: string, b: string, i: nat)
    requires SameUpToCase(a, b) && i <= |a|
    ensures |Scan(a, i)| == |Scan(b, i)|
    ensures forall k :: 0 <= k < |Scan(a, i)| ==> SameUpToCase(Scan(a, i)[k], Scan(b, i)[k])
    decreases |a| - i
  {
    if i + 1 < |a| {
      CharUpToCase(a[i], b[i]);
      CharUpToCase(a[i + 1], b[i + 1]);
    }
    assert PairAt(a, i) == PairAt(b, i);
    if PairAt(a, i) {
      ScanUpToCase(a, b, i + 2);
      var ra, rb := Scan(a, i + 2), Scan(b, i + 2);
      forall k | 0 <= k < |Scan(a, i)|
        ensures SameUpToCase(Scan(a, i)[k], Scan(b, i)[k])
      {
        if k > 0 {
          assert Scan(a, i)[k] == ra[k - 1] && Scan(b, i)[k] == rb[k - 1];
        }
      }
    } else if i < |a| {
      ScanUpToCase(a, b, i + 1);
    }
  }

  // ---------------------------------------------------------------------------
  // parseInt(_, 16)

  /** The length of the longest run of hex digits at the start of `t`. */
  function HexRunLength(t: string): (n: nat)
    ensures n <= |t|
    ensures forall k :: 0 <= k < n ==> IsHexDigit(t[k])
    ensures n < |t| ==> !IsHexDigit(t[n])
  {
    if t == [] || !IsHexDigit(t[0]) then 0 else 1 + HexRunLength(t[1..])
  }

  /** The number a run of hex digits denotes, most significant digit first. */
  function HexValue(digits: string): nat
    requires forall k :: 0 <= k < |digits| ==> IsHexDigit(digits[k])
  {
    if digits == [] then 0
    else 16 * HexValue(digits[..|digits| - 1]) + DigitValue(digits[|digits| - 1])
  }

  /**
   * `parseInt(t, 16)` on a piece of the pattern. Such a piece holds no white space
   * and no sign, so those steps of `parseInt` do nothing; with radix 16 a leading
   * `0x` or `0X` is dropped, then the longest run of hex digits is read, and an
   * empty run is `NaN` (None). For a piece this means: `NaN` when the first
   * character is no hex digit or the piece is `0x`/`0X`; the value of both digits
   * when both are hex digits; the first digit's value alone otherwise.
   */
  function ParseHex(t: string): (r: Option<int>)
    requires IsToken(t)
    ensures r.None? <==> !IsHexDigit(t[0]) || (t[0] == '0' && (t[1] == 'x' || t[1] == 'X'))
    ensures r.Some? && IsHexDigit(t[1]) ==> r.value == 16 * DigitValue(t[0]) + DigitValue(t[1])
    ensures r.Some? && !IsHexDigit(t[1]) ==> r.value == DigitValue(t[0])
    ensures r.Some? ==> 0 <= r.value <= 255
  {
    var digits := if |t| >= 2 && t[0] == '0' && (t[1] == 'x' || t[1] == 'X') then t[2..] else t;
    var n := HexRunLength(digits);
    PieceDigits(t, digits);
    if n == 0 then None else Some(HexValue(digits[..n]))
  }

  /** The digit run that `parseInt(_, 16)` reads from a piece, after the `0x` strip. */
  lemma PieceDigits(t: string, digits: string)
    requires IsToken(t)
    requires digits == if t[0] == '0' && (t[1] == 'x' || t[1] == 'X') then t[2..] else t
    ensures HexRunLength(digits) == 0 <==> !IsHexDigit(t[0]) || (t[0] == '0' && (t[1] == 'x' || t[1] == 'X'))
    ensures HexRunLength(digits) > 0 && IsHexDigit(t[1]) ==>
      HexValue(digits[..HexRunLength(digits)]) == 16 * DigitValue(t[0]) + DigitValue(t[1])
    ensures HexRunLength(digits) > 0 && !IsHexDigit(t[1]) ==>
      HexValue(digits[..HexRunLength(digits)]) == DigitValue(t[0])
  {
    if IsHexDigit(t[0]) && !(t[0] == '0' && (t[1] == 'x' || t[1] == 'X')) {
      assert HexRunLength(t[1..]) == (if IsHexDigit(t[1]) then 1 else 0) by {
        assert t[1..][1..] == [];
      }
      assert t[..1][..0] == [];
      assert HexValue(t[..1]) == DigitValue(t[0]);
      if IsHexDigit(t[1]) {
        assert t[..2] == t;
        assert t[..2][..1] == t[..1];
      }
    } else if IsHexDigit(t[0]) {
      assert t[2..] == [];
    }
  }

  // ---------------------------------------------------------------------------
  // hex_to_int_array and resource_address_to_int_array

  /** `parseInt(_, 16)` applied to every piece, in order. */
  function ParseAll(tokens: seq<string>): (values: seq<Option<int>>)
    requires forall k :: 0 <= k < |tokens| ==> IsToken(tokens[k])
  {
    seq(|tokens|, k requires 0 <= k < |tokens| => ParseHex(tokens[k]))
  }

  /** `hex_to_int_array(s)`: None for `null`, and an element None for `NaN`. */
  function HexToIntArray(s: string): (r: Option<seq<Option<int>>>)
    ensures r.Some? ==> 1 <= |r.value| <= |s| / 2
    ensures r.Some? ==> forall k :: 0 <= k < |r.value| && r.value[k].Some? ==> 0 <= r.value[k].value <= 255
  {
    var tokens := Scan(s, 0);
    if tokens == [] then None else Some(ParseAll(tokens))
  }

  /** The result is `null` exactly when no two adjacent characters are both in the class. */
  lemma DecodeNullIff(s: string)
    ensures HexToIntArray(s).None? <==> forall j :: !PairAt(s, j)
  {
    ScanEmptyIff(s, 0);
  }

  /** The result lists, in order, the value of each leftmost non-overlapping match. */
  lemma DecodeInMatchOrder(s: string)
    ensures GlobalMatch(s, 0) == [] ==> HexToIntArray(s).None?
    ensures GlobalMatch(s, 0) != [] ==> HexToIntArray(s) == Some(ParseAll(GlobalMatch(s, 0)))
  {
    ScanIsGlobalMatch(s, 0);
  }

  /**
   * A string of class characters only, two or more of them, decodes to an array of
   * half its length (rounded down): each element is read from the pair at `2k`.
   */
  lemma DecodeAllAlnum(s: string)
    requires |s| >= 2 && forall k :: 0 <= k < |s| ==> IsAlnum(s[k])
    ensures HexToIntArray(s).Some? && |HexToIntArray(s).value| == |s| / 2
    ensures forall k :: 0 <= k < |s| / 2 ==>
      IsToken(s[2 * k..2 * k + 2]) && HexToIntArray(s).value[k] == ParseHex(s[2 * k..2 * k + 2])
  {
    ScanAllAlnum(s, 0);
  }

  /** An unpaired last character of a class-only string is dropped, not rejected. */
  lemma DecodeDropsOddLast(s: string)
    requires |s| % 2 == 1 && forall k :: 0 <= k < |s| ==> IsAlnum(s[k])
    ensures HexToIntArray(s) == HexToIntArray(s[..|s| - 1])
  {
    var t := s[..|s| - 1];
    if |s| == 1 {
      DecodeNullIff(s);
      DecodeNullIff(t);
      return;
    }
    DecodeAllAlnum(s);
    DecodeAllAlnum(t);
    forall k | 0 <= k < |s| / 2
      ensures HexToIntArray(s).value[k] == HexToIntArray(t).value[k]
    {
      assert t[2 * k..2 * k + 2] == s[2 * k..2 * k + 2];
    }
    assert HexToIntArray(s).value == HexToIntArray(t).value;
  }

  /**
   * A string of hex digits only, two or more of them, decodes to `|s| / 2` bytes,
   * element `k` being `16 * hi + lo` for the digits at `2k` and `2k + 1`.
   */
  lemma DecodeHexDigits(s: string)
    requires |s| >= 2 && forall k :: 0 <= k < |s| ==> IsHexDigit(s[k])
    ensures HexToIntArray(s).Some? && |HexToIntArray(s).value| == |s| / 2
    ensures forall k :: 0 <= k < |s| / 2 ==>
      HexToIntArray(s).value[k] == Some(16 * DigitValue(s[2 * k]) + DigitValue(s[2 * k + 1]))
    ensures forall k :: 0 <= k < |s| / 2 ==> 0 <= HexToIntArray(s).value[k].value <= 255
  {
    DecodeAllAlnum(s);
    forall k | 0 <= k < |s| / 2
      ensures HexToIntArray(s).value[k] == Some(16 * DigitValue(s[2 * k]) + DigitValue(s[2 * k + 1]))
    {
      var t := s[2 * k..2 * k + 2];
      assert t[0] == s[2 * k] && t[1] == s[2 * k + 1];
    }
  }

  /** Decoding ignores the case of ASCII letters. */
  lemma DecodeCaseInsensitive(a: string, b: string)
    requires SameUpToCase(a, b)
    ensures HexToIntArray(a) == HexToIntArray(b)
  {
    ScanUpToCase(a, b, 0);
    var ta, tb := Scan(a, 0), Scan(b, 0);
    forall k | 0 <= k < |ta|
      ensures ParseHex(ta[k]) == ParseHex(tb[k])
    {
      CharUpToCase(ta[k][0], tb[k][0]);
      CharUpToCase(ta[k][1], tb[k][1]);
    }
    assert ta != [] ==> ParseAll(ta) == ParseAll(tb);
  }

  // ---------------------------------------------------------------------------
  // The inverse: writing bytes as lower-case hex

  function HexChar(d: nat): (c: char)
    requires d < 16
    ensures IsHexDigit(c) && DigitValue(c) == d
  {
    "0123456789abcdef"[d]
  }

  /** Two lower-case hex digits per byte, most significant first. */
  function ToHex(bytes: seq<int>): (s: string)
    requires forall k :: 0 <= k < |bytes| ==> 0 <= bytes[k] < 256
    ensures |s| == 2 * |bytes|
  {
    if bytes == [] then []
    else [HexChar(bytes[0] / 16), HexChar(bytes[0] % 16)] + ToHex(bytes[1..])
  }

  lemma {:induction false} ToHexAt(bytes: seq<int>, k: nat)
    requires forall j :: 0 <= j < |bytes| ==> 0 <= bytes[j] < 256
    requires k < |bytes|
    ensures ToHex(bytes)[2 * k] == HexChar(bytes[k] / 16)
    ensures ToHex(bytes)[2 * k + 1] == HexChar(bytes[k] % 16)
  {
    if k > 0 {
      ToHexAt(bytes[1..], k - 1);
    }
  }

  lemma {:induction false} ToHexDigits(bytes: seq<int>)
    requires forall j :: 0 <= j < |bytes| ==> 0 <= bytes[j] < 256
    ensures forall i :: 0 <= i < |ToHex(bytes)| ==> IsHexDigit(ToHex(bytes)[i])
  {
    if bytes != [] {
      ToHexDigits(bytes[1..]);
    }
  }

  /** Decoding undoes encoding: every non-empty byte list comes back, in order, without NaN. */
  lemma DecodeInvertsToHex(bytes: seq<int>)
    requires |bytes| >= 1 && forall k :: 0 <= k < |bytes| ==> 0 <= bytes[k] < 256
    ensures HexToIntArray(ToHex(bytes)) == Some(seq(|bytes|, k requires 0 <= k < |bytes| => Some(bytes[k])))
  {
    var s := ToHex(bytes);
    ToHexDigits(bytes);
    forall k | 0 <= k < |bytes|
      ensures s[2 * k] == HexChar(bytes[k] / 16) && s[2 * k + 1] == HexChar(bytes[k] % 16)
    {
      ToHexAt(bytes, k);
    }
    DecodeDigitPairs(s, bytes);
  }

  lemma DecodeDigitPairs(s: string, bytes: seq<int>)
    requires |bytes| >= 1 && forall k :: 0 <= k < |bytes| ==> 0 <= bytes[k] < 256
    requires |s| == 2 * |bytes| && forall i :: 0 <= i < |s| ==> IsHexDigit(s[i])
    requires forall k :: 0 <= k < |bytes| ==>
      s[2 * k] == HexChar(bytes[k] / 16) && s[2 * k + 1] == HexChar(bytes[k] % 16)
    ensures HexToIntArray(s) == Some(seq(|bytes|, k requires 0 <= k < |bytes| => Some(bytes[k])))
  {
    DecodeHexDigits(s);
    var decoded := HexToIntArray(s).value;
    forall k | 0 <= k < |bytes|
      ensures decoded[k] == Some(bytes[k])
    {
      var b := bytes[k];
      assert decoded[k] == Some(16 * DigitValue(s[2 * k]) + DigitValue(s[2 * k + 1]));
      assert 16 * (b / 16) + b % 16 == b;
    }
    assert decoded == seq(|bytes|, k requires 0 <= k < |bytes| => Some(bytes[k]));
  }

  // ---------------------------------------------------------------------------
  // resource_address_to_int_array

  const ResourcePrefix := "resource_"

  /** `pat` occurs in `s` at index `j`. */
  predicate OccursAt(s: string, pat: string, j: int) {
    0 <= j && j + |pat| <= |s| && s[j..j + |pat|] == pat
  }

  /** `s.indexOf(pat, from)`, None for -1. */
  function IndexOf(s: string, pat: string, from: nat): (r: Option<nat>)
    requires from <= |s|
    ensures r.Some? ==> from <= r.value && OccursAt(s, pat, r.value)
    ensures r.Some? ==> forall j :: from <= j < r.value ==> !OccursAt(s, pat, j)
    ensures r.None? ==> forall j :: from <= j ==> !OccursAt(s, pat, j)
    decreases |s| - from
  {
    if OccursAt(s, pat, from) then Some(from)
    else if from < |s| then IndexOf(s, pat, from + 1)
    else None
  }

  /** `s.replace(pat, '')` with a string pattern: only the first occurrence goes. */
  function RemoveFirst(s: string, pat: string): (r: string)
    ensures (forall j :: !OccursAt(s, pat, j)) ==> r == s
    ensures (exists j :: OccursAt(s, pat, j)) ==>
      exists i :: OccursAt(s, pat, i) && (forall j :: 0 <= j < i ==> !OccursAt(s, pat, j)) &&
        r == s[..i] + s[i + |pat|..]
  {
    match IndexOf(s, pat, 0)
    case None => s
    case Some(i) => s[..i] + s[i + |pat|..]
  }

  /** Removing the first occurrence of `pat` from `a + pat + b`, where none starts inside `a`. */
  lemma RemoveFirstOccurrence(a: string, pat: string, b: string)
    requires forall j :: 0 <= j < |a| ==> !OccursAt(a + pat + b, pat, j)
    ensures RemoveFirst(a + pat + b, pat) == a + b
  {
    var s := a + pat + b;
    assert OccursAt(s, pat, |a|) by {
      assert s[|a|..|a| + |pat|] == pat;
    }
    assert IndexOf(s, pat, 0) == Some(|a|);
    assert s[..|a|] == a && s[|a| + |pat|..] == b;
  }

  /** `resource_address_to_int_array(s)`. */
  function ResourceAddressToIntArray(s: string): (r: Option<seq<Option<int>>>)
    ensures (forall j :: !OccursAt(s, ResourcePrefix, j)) ==> r == HexToIntArray(s)
  {
    HexToIntArray(RemoveFirst(s, ResourcePrefix))
  }

  /**
   * An address `a + "resource_" + h` with no earlier occurrence of the prefix decodes
   * like `a + h`; in particular `"resource_" + h` decodes like `h`.
   */
  lemma ResourceAddressStripsFirstPrefix(a: string, h: string)
    requires forall j :: 0 <= j < |a| ==> !OccursAt(a + ResourcePrefix + h, ResourcePrefix, j)
    ensures ResourceAddressToIntArray(a + ResourcePrefix + h) == HexToIntArray(a + h)
  {
    RemoveFirstOccurrence(a, ResourcePrefix, h);
  }

  /** `"0aff"` decodes to `[10, 255]`. */
  lemma ExampleHex()
    ensures HexToIntArray("0aff") == Some([Some(10), Some(255)])
  {
    DecodeHexDigits("0aff");
    var r := HexToIntArray("0aff").value;
    assert r[0] == Some(16 * DigitValue('0') + DigitValue('a'));
    assert r[1] == Some(16 * DigitValue('f') + DigitValue('f'));
    assert r == [Some(10), Some(255)];
  }

  /** `"0a1"` decodes to `[10]`: the unpaired `1` is dropped. */
  lemma ExampleOddLength()
    ensures HexToIntArray("0a1") == Some([Some(10)])
  {
    DecodeDropsOddLast("0a1");
    assert "0a1"[..2] == "0a";
    DecodeHexDigits("0a");
    var r := HexToIntArray("0a").value;
    assert r[0] == Some(16 * DigitValue('0') + DigitValue('a'));
    assert r == [Some(10)];
  }

  /** `"zz"` and `"0x"` are matched, but each reads as NaN; `"a"` matches nothing. */
  lemma ExampleNaNAndNull()
    ensures HexToIntArray("zz") == Some([None])
    ensures HexToIntArray("0x") == Some([None])
    ensures HexToIntArray("a") == None
  {
    DecodeAllAlnum("zz");
    assert HexToIntArray("zz").value == [None];
    DecodeAllAlnum("0x");
    assert HexToIntArray("0x").value == [None];
    DecodeNullIff("a");
  }

  /** `"resource_0aff"` decodes like `"0aff"`. */
  lemma ExampleResourceAddress()
    ensures ResourceAddressToIntArray("resource_0aff") == Some([Some(10), Some(255)])
  {
    ResourceAddressStripsFirstPrefix("", "0aff");
    assert "" + ResourcePrefix + "0aff" == "resource_0aff";
    assert "" + "0aff" == "0aff";
    ExampleHex();
  }
}
