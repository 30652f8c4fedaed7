/**
 * The parts of java.lang.String, java.lang.Integer, java.util.Scanner and
 * java.util.Formatter that the record codecs and the wire protocol rely on,
 * stated for ASCII text.
 */
module Text {
  import opened Outcomes

  const MinInt32: int := -0x8000_0000
  const MaxInt32: int := 0x7FFF_FFFF

  predicate InInt32(v: int) {
    MinInt32 <= v <= MaxInt32
  }

  predicate IsDigit(c: char) {
    '0' <= c <= '9'
  }

  predicate AllDigits(s: string) {
    forall i :: 0 <= i < |s| ==> IsDigit(s[i])
  }

  // ---------------------------------------------------------------------------
  // Fields, String.split and Scanner.useDelimiter

  /** The pieces of `s` between occurrences of `d`, empty pieces included. */
  function Fields(s: string, d: char): (r: seq<string>)
    ensures |r| >= 1
    decreases |s|
  {
    if |s| == 0 then [""]
    else
      var rest := Fields(s[1..], d);
      if s[0] == d then [""] + rest else [[s[0]] + rest[0]] + rest[1..]
  }

  /** The fields written one after the other with `d` between them. */
  function Join(fs: seq<string>, d: char): string
    requires |fs| >= 1
  {
    if |fs| == 1 then fs[0] else fs[0] + [d] + Join(fs[1..], d)
  }

  /** No field contains the separator. */
  predicate SeparatorFree(fs: seq<string>, d: char) {
    forall i :: 0 <= i < |fs| ==> d !in fs[i]
  }

  lemma {:induction false} FieldsOfFree(a: string, d: char)
    requires d !in a
    ensures Fields(a, d) == [a]
    decreases |a|
  {
    if |a| > 0 {
      FieldsOfFree(a[1..], d);
      assert [a[0]] + a[1..] == a;
    }
  }

  lemma {:induction false} FieldsOfConcat(a: string, d: char, rest: string)
    requires d !in a
    ensures Fields(a + [d] + rest, d) == [a] + Fields(rest, d)
    decreases |a|
  {
    if |a| == 0 {
      assert a + [d] + rest == [d] + rest;
      assert ([d] + rest)[1..] == rest;
    } else {
      FieldsOfConcat(a[1..], d, rest);
      assert (a + [d] + rest)[1..] == a[1..] + [d] + rest;
      assert [a[0]] + a[1..] == a;
    }
  }

  /** Splitting a joined line on its separator gives the fields back. */
  lemma {:induction false} FieldsOfJoin(fs: seq<string>, d: char)
    requires |fs| >= 1 && SeparatorFree(fs, d)
    ensures Fields(Join(fs, d), d) == fs
    decreases |fs|
  {
    if |fs| == 1 {
      FieldsOfFree(fs[0], d);
    } else {
      FieldsOfJoin(fs[1..], d);
      FieldsOfConcat(fs[0], d, Join(fs[1..], d));
      assert [fs[0]] + fs[1..] == fs;
    }
  }

  /** `fs` without its trailing empty strings. */
  function DropTrailingEmpty(fs: seq<string>): (r: seq<string>)
    ensures |r| <= |fs| && r == fs[..|r|]
    ensures |r| > 0 ==> r[|r| - 1] != ""
    ensures forall i :: |r| <= i < |fs| ==> fs[i] == ""
  {
    if |fs| == 0 then []
    else if fs[|fs| - 1] == "" then DropTrailingEmpty(fs[..|fs| - 1])
    else fs
  }

  /**
   * `s.split(d)` with Java's default limit: a string without the separator
   * splits into itself, otherwise the trailing empty fields are removed.
   */
  function Split(s: string, d: char): seq<string> {
    if d !in s then [s] else DropTrailingEmpty(Fields(s, d))
  }

  /** The first field `split` returns for a line that starts with a non-empty separator-free field. */
  lemma SplitFirstField(a: string, d: char, rest: string)
    requires a != "" && d !in a
    ensures |Split(a + [d] + rest, d)| > 0 && Split(a + [d] + rest, d)[0] == a
  {
    assert (a + [d] + rest)[|a|] == d;
    FieldsOfConcat(a, d, rest);
    var fs := Fields(a + [d] + rest, d);
    assert fs[0] == a;
    var r := DropTrailingEmpty(fs);
    assert |r| > 0;
    assert r[0] == fs[0];
  }

  lemma JoinHasSeparator(fs: seq<string>, d: char)
    requires |fs| >= 2
    ensures d in Join(fs, d)
  {
    assert Join(fs, d)[|fs[0]|] == d;
  }

  /** `split` inverts `Join` when no field holds the separator and the last one is not empty. */
  lemma SplitOfJoin(fs: seq<string>, d: char)
    requires |fs| >= 1 && SeparatorFree(fs, d) && fs[|fs| - 1] != ""
    ensures Split(Join(fs, d), d) == fs
  {
    if |fs| == 1 {
      assert Join(fs, d) == fs[0];
    } else {
      JoinHasSeparator(fs, d);
      FieldsOfJoin(fs, d);
    }
  }

  /**
   * The tokens of `new Scanner(s).useDelimiter(d)`: before each token the
   * scanner skips one delimiter, so an empty first field and an empty last
   * field yield no token, while inner empty fields do.
   */
  function ScanTokens(s: string, d: char): seq<string> {
    var fs := Fields(s, d);
    var afterFirst := if fs[0] == "" then fs[1..] else fs;
    if |afterFirst| > 0 && afterFirst[|afterFirst| - 1] == "" then afterFirst[..|afterFirst| - 1]
    else afterFirst
  }

  /** Appending a field appends the separator and the field. */
  lemma {:induction false} JoinSnoc(fs: seq<string>, x: string, d: char)
    requires |fs| >= 1
    ensures Join(fs + [x], d) == Join(fs, d) + [d] + x
    decreases |fs|
  {
    if |fs| > 1 {
      JoinSnoc(fs[1..], x, d);
      assert (fs + [x])[1..] == fs[1..] + [x];
    } else {
      assert (fs + [x])[1..] == [x];
    }
  }

  /**
   * Scanning a joined line gives the fields back when they are separator-free
   * and the first and last are non-empty; inner fields may be empty.
   */
  lemma ScanTokensOfJoin(fs: seq<string>, d: char)
    requires |fs| >= 1 && SeparatorFree(fs, d) && fs[0] != "" && fs[|fs| - 1] != ""
    ensures ScanTokens(Join(fs, d), d) == fs
  {
    FieldsOfJoin(fs, d);
  }

  /** The token at position `i` of a scanner, which `next()` returns on its (i+1)-th call. */
  function NextToken(tokens: seq<string>, i: nat): (r: Result<string>)
    ensures r.Ok? <==> i < |tokens|
    ensures r.Err? ==> r.exc == NoSuchElement
  {
    if i < |tokens| then Ok(tokens[i]) else Err(NoSuchElement)
  }

  /** `nextInt()` at position `i`: NoSuchElementException past the end, InputMismatchException on a non-int. */
  function NextInt(tokens: seq<string>, i: nat): (r: Result<int>)
    ensures r.Err? ==> IsNoSuchElement(r.exc)
    ensures i < |tokens| && ParseInt(tokens[i]).Ok? ==> r == ParseInt(tokens[i])
  {
    if i < |tokens| then ScanInt(tokens[i]) else Err(NoSuchElement)
  }

  // ---------------------------------------------------------------------------
  // Integers as text

  function DigitChar(v: nat): char
    requires v < 10
  {
    (48 + v) as char
  }

  function DigitValue(c: char): nat
    requires IsDigit(c)
  {
    (c as int) - 48
  }

  /** The decimal digits of `n`, most significant first, without leading zeros. */
  function NatToString(n: nat): (r: string)
    ensures |r| >= 1 && AllDigits(r)
    decreases n
  {
    if n < 10 then [DigitChar(n)] else NatToString(n / 10) + [DigitChar(n % 10)]
  }

  /** `String.valueOf(i)`, which string concatenation and `StringBuilder.append` use. */
  function IntToString(i: int): string {
    if i < 0 then "-" + NatToString(-i) else NatToString(i)
  }

  /** The value of a string of decimal digits. */
  function DigitsValue(s: string): nat
    requires AllDigits(s)
    decreases |s|
  {
    if |s| == 0 then 0 else DigitsValue(s[..|s| - 1]) * 10 + DigitValue(s[|s| - 1])
  }

  lemma {:induction false} DigitsValueOfNatToString(n: nat)
    ensures DigitsValue(NatToString(n)) == n
    decreases n
  {
    if n >= 10 {
      DigitsValueOfNatToString(n / 10);
      var s := NatToString(n);
      assert s[..|s| - 1] == NatToString(n / 10);
    }
  }

  /** `Integer.parseInt(s)`: an optional sign, then decimal digits, within int range. */
  function ParseInt(s: string): Result<int> {
    var negative := |s| > 0 && s[0] == '-';
    var body := if |s| > 0 && (s[0] == '-' || s[0] == '+') then s[1..] else s;
    if |body| == 0 || !AllDigits(body) then Err(NumberFormat)
    else
      var magnitude: int := DigitsValue(body);
      var v := if negative then -magnitude else magnitude;
      if InInt32(v) then Ok(v) else Err(NumberFormat)
  }

  /** `Integer.parseInt` reads back every int that `String.valueOf` wrote. */
  lemma ParseIntOfIntToString(i: int)
    requires InInt32(i)
    ensures ParseInt(IntToString(i)) == Ok(i)
  {
    if i < 0 {
      DigitsValueOfNatToString(-i);
      assert IntToString(i)[0] == '-';
      assert IntToString(i)[1..] == NatToString(-i);
    } else {
      DigitsValueOfNatToString(i);
      assert IsDigit(NatToString(i)[0]);
    }
  }

  /** A written int starts with a minus sign exactly when it is negative. */
  lemma SignOfIntToString(i: int)
    ensures |IntToString(i)| > 0 && (IntToString(i)[0] == '-' <==> i < 0)
  {
    if i >= 0 {
      assert IsDigit(NatToString(i)[0]);
    }
  }

  /** Different ints are written differently. */
  lemma IntToStringInjective(a: int, b: int)
    requires IntToString(a) == IntToString(b)
    ensures a == b
  {
    SignOfIntToString(a);
    SignOfIntToString(b);
    if a < 0 && b < 0 {
      assert NatToString(-a) == IntToString(a)[1..] == NatToString(-b);
      DigitsValueOfNatToString(-a);
      DigitsValueOfNatToString(-b);
    } else if a >= 0 && b >= 0 {
      DigitsValueOfNatToString(a);
      DigitsValueOfNatToString(b);
    }
  }

  /** `Scanner.nextInt()` on one token: a token that is no int is an InputMismatchException. */
  function ScanInt(token: string): Result<int> {
    match ParseInt(token)
    case Ok(v) => Ok(v)
    case Err(_) => Err(InputMismatch)
  }

  lemma ConcatAssoc<T>(a: seq<T>, b: seq<T>, c: seq<T>)
    ensures a + b + c == a + (b + c)
  {
  }

  lemma NotInConcat<T>(a: seq<T>, b: seq<T>, x: T)
    requires x !in a && x !in b
    ensures x !in a + b
  {
  }

  lemma TakeTail<T>(s: seq<T>, k: nat)
    requires 0 < k <= |s|
    ensures s[..k][1..] == s[1..][..k - 1]
  {
  }

  lemma SliceSnoc<T>(s: seq<T>, i: nat, j: nat)
    requires i <= j < |s|
    ensures s[i..j + 1] == s[i..j] + [s[j]]
  {
  }

  /** `v + 1` in Java `int` arithmetic: only the largest int wraps, to the smallest. */
  lemma Wrap32Successor(v: int)
    requires InInt32(v)
    ensures Wrap32(v + 1) == if v == MaxInt32 then MinInt32 else v + 1
  {
  }

  /** Java `int` arithmetic: `v` wrapped into the 32-bit two's-complement range. */
  function Wrap32(v: int): (r: int)
    ensures InInt32(r)
    ensures InInt32(v) ==> r == v
    ensures (v - r) % 0x1_0000_0000 == 0
  {
    var m := v % 0x1_0000_0000;
    if m > MaxInt32 then m - 0x1_0000_0000 else m
  }

  /** `String.format("%02d", n)`: at least two characters, zero-padded when non-negative. */
  function Pad2(n: int): string {
    if 0 <= n < 10 then "0" + NatToString(n) else IntToString(n)
  }

  /** A number 0..99 pads to exactly two digits that read back as the number. */
  lemma Pad2Digits(n: int)
    requires 0 <= n < 100
    ensures |Pad2(n)| == 2 && AllDigits(Pad2(n)) && DigitsValue(Pad2(n)) == n
  {
    if n < 10 {
      assert Pad2(n) == ['0', DigitChar(n)];
      assert Pad2(n)[..1] == "0";
      assert DigitsValue("0") == 0;
    } else {
      assert NatToString(n / 10) == [DigitChar(n / 10)];
      DigitsValueOfNatToString(n);
    }
  }

  /** `Integer.parseInt` reads back every int that `%02d` wrote. */
  lemma ParseIntOfPad2(n: int)
    requires InInt32(n)
    ensures ParseInt(Pad2(n)) == Ok(n)
    ensures forall k :: 0 <= k < |Pad2(n)| ==> IsDigit(Pad2(n)[k]) || Pad2(n)[k] == '-'
  {
    if 0 <= n < 10 {
      Pad2Digits(n);
    } else {
      ParseIntOfIntToString(n);
      SignOfIntToString(n);
      var s := IntToString(n);
      forall k | 0 <= k < |s|
        ensures IsDigit(s[k]) || s[k] == '-'
      {
        if n < 0 && k > 0 {
          assert s[k] == NatToString(-n)[k - 1];
        }
      }
    }
  }

  // ---------------------------------------------------------------------------
  // Whitespace tokens (Scanner's default delimiter)

  /** `Character.isWhitespace` for the ASCII range. */
  predicate IsWhitespace(c: char) {
    c == ' ' || 9 <= c as int <= 13 || 28 <= c as int <= 31
  }

  /** `s` without its leading whitespace. */
  function SkipWhitespace(s: string): (r: string)
    ensures |r| <= |s| && r == s[|s| - |r|..]
    ensures |r| > 0 ==> !IsWhitespace(r[0])
    ensures forall i :: 0 <= i < |s| - |r| ==> IsWhitespace(s[i])
  {
    if |s| > 0 && IsWhitespace(s[0]) then SkipWhitespace(s[1..]) else s
  }

  /** The longest prefix of `s` without whitespace. */
  function TakeToken(s: string): (r: string)
    ensures |r| <= |s| && r == s[..|r|]
    ensures forall i :: 0 <= i < |r| ==> !IsWhitespace(r[i])
    ensures |r| < |s| ==> IsWhitespace(s[|r|])
  {
    if |s| > 0 && !IsWhitespace(s[0]) then [s[0]] + TakeToken(s[1..]) else []
  }

  /** The first whitespace-delimited token of `s`, as `Scanner.next()` finds it, or none. */
  function FirstToken(s: string): Option<string> {
    var t := SkipWhitespace(s);
    if |t| == 0 then None else Some(TakeToken(t))
  }

  predicate NoWhitespace(s: string) {
    forall i :: 0 <= i < |s| ==> !IsWhitespace(s[i])
  }

  /** A whitespace-free word followed by a whitespace character is the first token, whatever follows. */
  lemma FirstTokenOfWord(w: string, sep: char, rest: string)
    requires |w| > 0 && NoWhitespace(w) && IsWhitespace(sep)
    ensures FirstToken(w) == Some(w)
    ensures FirstToken(w + [sep] + rest) == Some(w)
  {
    TakeTokenOfWord(w, []);
    TakeTokenOfWord(w, [sep] + rest);
    assert w + [] == w;
    assert w + [sep] + rest == w + ([sep] + rest);
    assert SkipWhitespace(w) == w;
    assert SkipWhitespace(w + [sep] + rest) == w + [sep] + rest;
  }

  lemma {:induction false} TakeTokenOfWord(w: string, tail: string)
    requires NoWhitespace(w)
    requires |tail| == 0 || IsWhitespace(tail[0])
    ensures TakeToken(w + tail) == w
    decreases |w|
  {
    if |w| > 0 {
      TakeTokenOfWord(w[1..], tail);
      assert (w + tail)[1..] == w[1..] + tail;
      assert [w[0]] + w[1..] == w;
    } else {
      assert w + tail == tail;
    }
  }

  // ---------------------------------------------------------------------------
  // Case-insensitive comparison (ASCII case folding)

  function LowerChar(c: char): char {
    if 'A' <= c <= 'Z' then (c as int + 32) as char else c
  }

  function Lower(s: string): (r: string)
    ensures |r| == |s| && forall i :: 0 <= i < |s| ==> r[i] == LowerChar(s[i])
  {
    seq(|s|, i requires 0 <= i < |s| => LowerChar(s[i]))
  }

  /** `a.compareToIgnoreCase(b)`: the first differing folded characters, else the lengths. */
  function CompareIgnoreCase(a: string, b: string): int
    decreases |a|
  {
    if |a| == 0 || |b| == 0 then |a| - |b|
    else if LowerChar(a[0]) != LowerChar(b[0]) then LowerChar(a[0]) as int - LowerChar(b[0]) as int
    else CompareIgnoreCase(a[1..], b[1..])
  }

  /** The comparison is zero exactly when the two strings fold to the same text. */
  lemma {:induction false} CompareIgnoreCaseZero(a: string, b: string)
    ensures CompareIgnoreCase(a, b) == 0 <==> Lower(a) == Lower(b)
    decreases |a|
  {
    if |a| > 0 && |b| > 0 {
      CompareIgnoreCaseZero(a[1..], b[1..]);
      assert Lower(a) == [LowerChar(a[0])] + Lower(a[1..]);
      assert Lower(b) == [LowerChar(b[0])] + Lower(b[1..]);
    }
  }

  /** Swapping the operands flips the sign. */
  lemma {:induction false} CompareIgnoreCaseAntisymmetric(a: string, b: string)
    ensures CompareIgnoreCase(a, b) == -CompareIgnoreCase(b, a)
    decreases |a|
  {
    if |a| > 0 && |b| > 0 && LowerChar(a[0]) == LowerChar(b[0]) {
      CompareIgnoreCaseAntisymmetric(a[1..], b[1..]);
    }
  }
}
