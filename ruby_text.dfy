/**
 * The handful of Ruby core methods the cron parser is built from, each with the
 * behaviour Ruby gives it: String#split with a one-character pattern, String#to_i,
 * Integer#to_s, Array#join, String#strip, String#downcase, IO#each_line and IO#puts.
 */
module RubyText {

  /** Ruby's regular-expression class `\s`: space, tab, LF, VT, FF and CR. */
  predicate IsSpace(c: char) {
    c == ' ' || c == '\t' || c == '\n' || c == '\U{B}' || c == '\U{C}' || c == '\r'
  }

  /** The characters String#strip removes at either end: `\s` and the null character. */
  predicate IsStripChar(c: char) {
    IsSpace(c) || c == '\0'
  }

  predicate IsDigit(c: char) {
    '0' <= c <= '9'
  }

  predicate AllDigits(s: string) {
    forall i :: 0 <= i < |s| ==> IsDigit(s[i])
  }

  /** `s =~ /^p/` for a literal prefix on a single line. */
  predicate StartsWith(s: string, p: string) {
    |p| <= |s| && s[..|p|] == p
  }

  /** Position of the first `c` in `s`, or `|s|` when `c` does not occur. */
  function IndexOf(s: string, c: char): (k: nat)
    ensures k <= |s|
    ensures k < |s| ==> s[k] == c
    ensures forall i :: 0 <= i < k ==> s[i] != c
    decreases |s|
  {
    if s == [] then 0
    else if s[0] == c then 0
    else 1 + IndexOf(s[1..], c)
  }

  lemma IndexOfAbsent(s: string, c: char)
    requires c !in s
    ensures IndexOf(s, c) == |s|
  {
  }

  /** The first occurrence of `c` in `x + [c] + y` is the one after `x` when `x` has none. */
  lemma IndexOfAfter(x: string, c: char, y: string)
    requires c !in x
    ensures IndexOf(x + [c] + y, c) == |x|
  {
    var s := x + [c] + y;
    assert s[|x|] == c;
    assert forall i :: 0 <= i < |x| ==> s[i] == x[i];
  }

  /** A non-empty string without the separator splits into itself alone. */
  lemma SplitOne(s: string, c: char)
    requires s != [] && c !in s
    ensures Split(s, c) == [s]
  {
    SplitOfJoin([s], c);
  }

  // ------------------------------------------------------------------
  // String#split and Array#join

  /** Every field of `s` between occurrences of `c`, empty ones included. */
  function Pieces(s: string, c: char): (r: seq<string>)
    ensures |r| >= 1
    ensures forall i :: 0 <= i < |r| ==> c !in r[i]
    decreases |s|
  {
    var k := IndexOf(s, c);
    if k == |s| then [s]
    else
      assert c !in s[..k] by {
        forall i | 0 <= i < k ensures s[..k][i] != c { }
      }
      [s[..k]] + Pieces(s[k + 1..], c)
  }

  /** Ruby drops trailing empty fields from the result of a split without a limit. */
  function DropTrailingEmpty(xs: seq<string>): (r: seq<string>)
    ensures |r| <= |xs| && r == xs[..|r|]
    ensures r == [] || r[|r| - 1] != []
    ensures forall i :: |r| <= i < |xs| ==> xs[i] == []
    decreases |xs|
  {
    if xs != [] && xs[|xs| - 1] == [] then DropTrailingEmpty(xs[..|xs| - 1]) else xs
  }

  /** Ruby's `s.split(c)` for a one-character string pattern (never the awk-style " "). */
  function Split(s: string, c: char): (r: seq<string>)
    ensures forall i :: 0 <= i < |r| ==> c !in r[i]
    ensures r == [] || r[|r| - 1] != []
  {
    DropTrailingEmpty(Pieces(s, c))
  }

  /** Ruby's `xs.join(sep)`. */
  function Join(xs: seq<string>, sep: char): string
  {
    if xs == [] then ""
    else if |xs| == 1 then xs[0]
    else xs[0] + [sep] + Join(xs[1..], sep)
  }

  /** Splitting a join gives the joined fields back, when no field contains the separator. */
  lemma {:induction false} PiecesOfJoin(xs: seq<string>, c: char)
    requires xs != []
    requires forall i :: 0 <= i < |xs| ==> c !in xs[i]
    ensures Pieces(Join(xs, c), c) == xs
    decreases |xs|
  {
    if |xs| == 1 {
      IndexOfAbsent(xs[0], c);
    } else {
      var rest := Join(xs[1..], c);
      var s := xs[0] + [c] + rest;
      assert Pieces(s, c) == [xs[0]] + Pieces(rest, c) by {
        IndexOfAfter(xs[0], c, rest);
        assert s[..|xs[0]|] == xs[0];
        assert s[|xs[0]| + 1..] == rest;
      }
      assert Pieces(rest, c) == xs[1..] by {
        PiecesOfJoin(xs[1..], c);
      }
      HeadTail(xs);
    }
  }

  /** Ruby's split is undone by join: `s.split(c).join(c)` loses only trailing separators. */
  lemma {:induction false} JoinOfPieces(s: string, c: char)
    ensures Join(Pieces(s, c), c) == s
    decreases |s|
  {
    var k := IndexOf(s, c);
    if k < |s| {
      var rest := Pieces(s[k + 1..], c);
      assert Pieces(s, c) == [s[..k]] + rest;
      assert Join(rest, c) == s[k + 1..] by {
        JoinOfPieces(s[k + 1..], c);
      }
      CutAt(s, k);
    }
  }

  lemma SplitOfJoin(xs: seq<string>, c: char)
    requires forall i :: 0 <= i < |xs| ==> c !in xs[i]
    requires xs == [] || xs[|xs| - 1] != []
    ensures Split(Join(xs, c), c) == xs
  {
    if xs == [] {
      assert Pieces("", c) == [""];
    } else {
      PiecesOfJoin(xs, c);
    }
  }

  // ------------------------------------------------------------------
  // String#to_i and Integer#to_s

  function DigitValue(c: char): nat
    requires IsDigit(c)
  {
    (c as int) - ('0' as int)
  }

  function DigitChar(d: nat): (c: char)
    requires d < 10
    ensures IsDigit(c) && DigitValue(c) == d
  {
    ('0' as int + d) as char
  }

  /** The longest prefix of `s` made of decimal digits. */
  function DigitPrefix(s: string): (r: string)
    ensures |r| <= |s| && r == s[..|r|]
    ensures AllDigits(r)
    ensures |r| < |s| ==> !IsDigit(s[|r|])
    decreases |s|
  {
    if s != [] && IsDigit(s[0]) then [s[0]] + DigitPrefix(s[1..]) else []
  }

  /** The value of a string of decimal digits, most significant first. */
  function DecimalValue(ds: string): nat
    requires AllDigits(ds)
    decreases |ds|
  {
    if ds == [] then 0 else 10 * DecimalValue(ds[..|ds| - 1]) + DigitValue(ds[|ds| - 1])
  }

  /**
   * Ruby's String#to_i: an optional sign and the leading decimal digits; a string
   * without leading digits gives 0 (and so does `nil.to_i`).
   */
  function ToI(s: string): int
  {
    if s != [] && s[0] == '-' then 0 - DecimalValue(DigitPrefix(s[1..]))
    else if s != [] && s[0] == '+' then DecimalValue(DigitPrefix(s[1..]))
    else DecimalValue(DigitPrefix(s))
  }

  /** Ruby's Integer#to_s for a non-negative integer. */
  function NatToS(n: nat): string
  {
    if n < 10 then [DigitChar(n)] else NatToS(n / 10) + [DigitChar(n % 10)]
  }

  /** Integer#to_s of a non-negative integer is a non-empty run of digits. */
  lemma {:induction false} NatToSDigits(n: nat)
    ensures NatToS(n) != [] && AllDigits(NatToS(n))
  {
    if n >= 10 {
      NatToSDigits(n / 10);
    }
  }

  /** Ruby's Integer#to_s. */
  function IntToS(n: int): string
  {
    if n < 0 then "-" + NatToS(-n) else NatToS(n)
  }

  lemma {:induction false} DecimalValueOfNatToS(n: nat)
    ensures AllDigits(NatToS(n)) && DecimalValue(NatToS(n)) == n
  {
    NatToSDigits(n);
    if n >= 10 {
      var s := NatToS(n);
      assert s[..|s| - 1] == NatToS(n / 10);
      DecimalValueOfNatToS(n / 10);
    }
  }

  lemma DigitPrefixOfDigits(s: string)
    requires AllDigits(s)
    ensures DigitPrefix(s) == s
  {
  }

  /** `n.to_s.to_i == n` for a non-negative integer: its digits start with no sign. */
  lemma ToIOfNatToS(n: nat)
    ensures ToI(NatToS(n)) == n
  {
    var s := NatToS(n);
    NatToSDigits(n);
    assert IsDigit(s[0]);
    DigitPrefixOfDigits(s);
    DecimalValueOfNatToS(n);
  }

  /** `n.to_s.to_i == n` for every integer. */
  lemma ToIOfIntToS(n: int)
    ensures ToI(IntToS(n)) == n
  {
    if n < 0 {
      ToIOfSigned(-n);
    } else {
      ToIOfNatToS(n);
    }
  }

  lemma ToIOfSigned(n: nat)
    ensures ToI("-" + NatToS(n)) == -(n as int)
  {
    var s := "-" + NatToS(n);
    assert s[0] == '-' && s[1..] == NatToS(n);
    NatToSDigits(n);
    DigitPrefixOfDigits(NatToS(n));
    DecimalValueOfNatToS(n);
  }

  lemma IntToSInjective(m: int, n: int)
    requires IntToS(m) == IntToS(n)
    ensures m == n
  {
    ToIOfIntToS(m);
    ToIOfIntToS(n);
  }

  // ------------------------------------------------------------------
  // String#strip and String#downcase

  function StripLeft(s: string): (r: string)
    ensures r == [] || !IsStripChar(r[0])
    ensures |r| <= |s|
    decreases |s|
  {
    if s != [] && IsStripChar(s[0]) then StripLeft(s[1..]) else s
  }

  /** What StripLeft keeps is a suffix of its argument. */
  lemma {:induction false} StripLeftSuffix(s: string)
    ensures StripLeft(s) == s[|s| - |StripLeft(s)|..]
    decreases |s|
  {
    if s != [] && IsStripChar(s[0]) {
      StripLeftSuffix(s[1..]);
      assert s[1..][|s| - 1 - |StripLeft(s)|..] == s[|s| - |StripLeft(s)|..];
    }
  }

  function StripRight(s: string): (r: string)
    ensures r == [] || !IsStripChar(r[|r| - 1])
    ensures |r| <= |s| && r == s[..|r|]
    decreases |s|
  {
    if s != [] && IsStripChar(s[|s| - 1]) then StripRight(s[..|s| - 1]) else s
  }

  /** Ruby's String#strip. */
  function Strip(s: string): (r: string)
    ensures r == [] || (!IsStripChar(r[0]) && !IsStripChar(r[|r| - 1]))
  {
    StripRight(StripLeft(s))
  }

  /** A string String#strip leaves as it is. */
  predicate Stripped(s: string) {
    s == [] || (!IsStripChar(s[0]) && !IsStripChar(s[|s| - 1]))
  }

  /** A line whose only newline is its last character has none left once stripped. */
  lemma StripDropsNewline(s: string)
    requires forall i :: 0 <= i < |s| - 1 ==> s[i] != '\n'
    ensures '\n' !in Strip(s)
  {
    var l := StripLeft(s);
    StripLeftSuffix(s);
    var r := Strip(s);
    var off := |s| - |l|;
    assert forall i :: 0 <= i < |r| ==> r[i] == s[off + i];
  }

  lemma StripOfStripped(s: string)
    requires Stripped(s)
    ensures Strip(s) == s
  {
  }

  lemma StripIdempotent(s: string)
    ensures Strip(Strip(s)) == Strip(s)
  {
    StripOfStripped(Strip(s));
  }

  /** Appending a strippable character changes nothing String#strip returns. */
  lemma {:induction false} StripAppend(s: string, c: char)
    requires IsStripChar(c)
    ensures Strip(s + [c]) == Strip(s)
    decreases |s|
  {
    if s != [] && IsStripChar(s[0]) {
      assert (s + [c])[1..] == s[1..] + [c];
      StripAppend(s[1..], c);
    } else if s == [] {
      assert s + [c] == [c] && [c][1..] == [];
      assert StripLeft([c]) == StripLeft([]);
    } else {
      assert StripLeft(s + [c]) == s + [c];
      assert (s + [c])[..|s|] == s;
    }
  }

  function Lower(c: char): char {
    if 'A' <= c <= 'Z' then (c as int + 32) as char else c
  }

  /** Ruby's String#downcase, on the ASCII letters. */
  function Downcase(s: string): (r: string)
    ensures |r| == |s| && forall i :: 0 <= i < |s| ==> r[i] == Lower(s[i])
  {
    if s == [] then [] else [Lower(s[0])] + Downcase(s[1..])
  }

  // ------------------------------------------------------------------
  // IO#each_line and IO#puts

  /**
   * Ruby's each_line with the default separator: every line keeps its "\n", the
   * last one may have none, and empty text has no lines.
   */
  function EachLine(text: string): seq<string>
    decreases |text|
  {
    if text == [] then []
    else
      var k := IndexOf(text, '\n');
      if k == |text| then [text] else [text[..k + 1]] + EachLine(text[k + 1..])
  }

  /** Lines as each_line yields them: non-empty, with no newline before the last character. */
  predicate LineShaped(r: seq<string>) {
    forall i :: 0 <= i < |r| ==> IsLine(r[i])
  }

  /** Every line each_line yields is non-empty and has no newline before its last character. */
  lemma {:induction false} EachLineShape(text: string)
    ensures LineShaped(EachLine(text))
    decreases |text|
  {
    if text != [] {
      var k := IndexOf(text, '\n');
      var first := if k == |text| then text else text[..k + 1];
      assert '\n' !in first[..|first| - 1] by {
        assert forall i :: 0 <= i < |first| - 1 ==> first[..|first| - 1][i] == text[i];
      }
      if k < |text| {
        EachLineShape(text[k + 1..]);
        var r := EachLine(text);
        var tail := EachLine(text[k + 1..]);
        assert forall i :: 1 <= i < |r| ==> r[i] == tail[i - 1];
      }
    }
  }

  /** The text that a sequence of lines spells out. */
  function Concat(xs: seq<string>): string
  {
    if xs == [] then "" else xs[0] + Concat(xs[1..])
  }

  /** each_line loses nothing: its lines put back together are the text. */
  lemma {:induction false} ConcatOfEachLine(text: string)
    ensures Concat(EachLine(text)) == text
    decreases |text|
  {
    if text != [] {
      var k := IndexOf(text, '\n');
      if k < |text| {
        ConcatOfEachLine(text[k + 1..]);
        TakeDrop(text, k + 1);
      }
    }
  }

  /** What IO#puts writes for one string: a newline is added unless it ends in one. */
  function Puts(s: string): (r: string)
    ensures r != [] && r[|r| - 1] == '\n'
  {
    if s != [] && s[|s| - 1] == '\n' then s else s + "\n"
  }

  /** A single-line string written with puts comes back from each_line as one line. */
  lemma EachLineOfPuts(s: string, rest: string)
    requires '\n' !in s
    ensures EachLine(Puts(s) + rest) == [s + "\n"] + EachLine(rest)
  {
    var text := s + "\n" + rest;
    IndexOfAfter(s, '\n', rest);
    assert text[..|s| + 1] == s + "\n";
    assert text[|s| + 1..] == rest;
  }

  /** A non-empty sequence is its first element followed by the rest. */
  lemma HeadTail<T>(s: seq<T>)
    requires s != []
    ensures [s[0]] + s[1..] == s
  {
  }

  /** A sequence is its prefix of any length followed by the rest. */
  lemma TakeDrop<T>(s: seq<T>, i: nat)
    requires i <= |s|
    ensures s[..i] + s[i..] == s
  {
  }

  /** A sequence is what comes before position `k`, the element there, and what follows. */
  lemma CutAt<T>(s: seq<T>, k: nat)
    requires k < |s|
    ensures s[..k] + [s[k]] + s[k + 1..] == s
  {
  }

  /** A prefix one element longer is the shorter prefix and that element. */
  lemma PrefixSnoc<T>(s: seq<T>, i: nat)
    requires i < |s|
    ensures s[..i + 1] == s[..i] + [s[i]]
  {
  }

  /** One line as each_line yields it: not empty, and a newline only at its end. */
  predicate IsLine(l: string) {
    l != [] && '\n' !in l[..|l| - 1]
  }

  /** Lines of which all but the last end in a newline are what each_line yields for their concatenation. */
  lemma {:induction false} EachLineOfConcat(lines: seq<string>)
    requires forall i :: 0 <= i < |lines| ==> IsLine(lines[i])
    requires forall i :: 0 <= i < |lines| - 1 ==> lines[i] != [] && lines[i][|lines[i]| - 1] == '\n'
    ensures EachLine(Concat(lines)) == lines
    decreases |lines|
  {
    if lines != [] {
      var x := lines[0];
      var rest := Concat(lines[1..]);
      assert IsLine(x);
      if x[|x| - 1] == '\n' {
        var y := x[..|x| - 1];
        assert x == y + "\n";
        assert Puts(y) == x;
        EachLineOfPuts(y, rest);
        assert forall i :: 0 <= i < |lines| - 1 ==> lines[1..][i] == lines[i + 1];
        EachLineOfConcat(lines[1..]);
      } else {
        assert |lines| == 1;
        assert lines[1..] == [];
        assert x + rest == x;
        assert forall i :: 0 <= i < |x| ==> x[i] != '\n' by {
          assert forall i :: 0 <= i < |x| - 1 ==> x[i] == x[..|x| - 1][i];
        }
        IndexOfAbsent(x, '\n');
      }
    }
  }
}
