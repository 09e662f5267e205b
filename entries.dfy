/**
 * CronEntry: one crontab entry, built either from a text line such as
 * "5,35 0-23/2 * * * echo 123" or from a hash such as {minute: "5", command: "echo 42"}.
 *
 * An entry keeps two forms: `raw` (what `to_s` returns and what a crontab line
 * holds) and `fields` (what `to_hash` returns). A text definition is kept
 * verbatim as `raw` and its fields are the five schedule fields expanded by
 * parse_field plus the command; a hash definition is merged into DEFAULTS,
 * its values are not validated, and `raw` is their tab-joined form.
 */
module Entries {
  import opened RubyText
  import opened CronTypes
  import opened FieldExpander

  /** CronEntry::DEFAULTS. */
  const DEFAULTS: map<Key, string> :=
    map[Minute := "*", Hour := "*", Day := "*", Month := "*", Weekday := "*", Command := ""]

  /** CronEntry::WDAY, as the library spells it: Saturday is "sut". */
  const WDAY: seq<string> := ["sun", "mon", "tue", "wed", "thu", "fri", "sut"]

  /** The argument of CronEntry.new: a String, or a Hash (the default is the empty Hash). */
  datatype Definition = Text(line: string) | Hash(pairs: map<Key, string>)

  /** A constructed entry: `@def` and `@defHash`. */
  datatype CronEntry = CronEntry(raw: string, fields: map<Key, string>) {
    /** CronEntry#to_s. */
    function ToS(): string {
      raw
    }

    /** CronEntry#to_hash. */
    function ToHash(): map<Key, string> {
      fields
    }

    /** CronEntry#[]: nil for a key the hash does not hold. */
    function Get(k: Key): Option<string> {
      if k in fields then Some(fields[k]) else None
    }

    /** CronEntry#to_raw without an argument. */
    function ToRaw(): string {
      RawOf(fields)
    }
  }

  /** `"#{h[k]}"`: a missing key interpolates as the empty string. */
  function Value(h: map<Key, string>, k: Key): string {
    if k in h then h[k] else ""
  }

  /** The six values `to_raw` interpolates, in field order. */
  function Values(h: map<Key, string>): seq<string> {
    [Value(h, Minute), Value(h, Hour), Value(h, Day), Value(h, Month), Value(h, Weekday), Value(h, Command)]
  }

  /** CronEntry#to_raw(h): the six values of `h` joined by tabs. */
  function RawOf(h: map<Key, string>): (r: string)
    ensures (forall i :: 0 <= i < 6 ==> '\t' !in Values(h)[i]) ==> Pieces(r, '\t') == Values(h)
  {
    JoinSplitsBack(Values(h), '\t');
    Join(Values(h), '\t')
  }

  /** A join splits back into its pieces when none of them holds the separator. */
  lemma JoinSplitsBack(xs: seq<string>, c: char)
    requires xs != []
    ensures (forall i :: 0 <= i < |xs| ==> c !in xs[i]) ==> Pieces(Join(xs, c), c) == xs
  {
    if forall i :: 0 <= i < |xs| ==> c !in xs[i] {
      PiecesOfJoin(xs, c);
    }
  }

  // ------------------------------------------------------------------
  // Whitespace tokens, as the regular expressions of parse_timedate and parseTextDef see them

  /** The longest prefix of `s` with no `\s` character: what a greedy `\S+` takes. */
  function NonSpacePrefix(s: string): (r: string)
    ensures |r| <= |s|
    ensures forall i :: 0 <= i < |r| ==> !IsSpace(r[i])
    decreases |s|
  {
    if s != [] && !IsSpace(s[0]) then [s[0]] + NonSpacePrefix(s[1..]) else []
  }

  /** The longest prefix of `s` made of `\s` characters: what a greedy `\s+` takes. */
  function SpacePrefix(s: string): (r: string)
    ensures |r| <= |s|
    decreases |s|
  {
    if s != [] && IsSpace(s[0]) then [s[0]] + SpacePrefix(s[1..]) else []
  }

  /**
   * `\S+(\s+\S+){n-1}` matched at the very start of `s`: the first `n`
   * whitespace-separated words, and the text after the last of them.
   */
  function Words(s: string, n: nat): (r: Option<(seq<string>, string)>)
    requires n >= 1
    ensures r.Some? ==> |r.value.0| == n && forall i :: 0 <= i < n ==> IsWord(r.value.0[i])
    decreases n
  {
    var t := NonSpacePrefix(s);
    if t == [] then None
    else
      var rest := s[|t|..];
      if n == 1 then Some(([t], rest))
      else
        var w := SpacePrefix(rest);
        if w == [] then None
        else
          match Words(rest[|w|..], n - 1)
          case None => None
          case Some(more) => Some(([t] + more.0, more.1))
  }

  /** Every whitespace-separated word of `s`: the reference the regular expressions are measured against. */
  function Tokens(s: string): seq<string>
    decreases |s|
  {
    if s == [] then []
    else if IsSpace(s[0]) then Tokens(s[1..])
    else
      var t := NonSpacePrefix(s);
      [t] + Tokens(s[|t|..])
  }

  /**
   * The five fields `str.scan(/^(\S+)\s+(\S+)\s+(\S+)\s+(\S+)\s+(\S+)/).shift` finds:
   * `^` matches at the start of the text and after every newline, and the first
   * position where the five words are found wins.
   */
  function TimedateFields(s: string): (r: Option<seq<string>>)
    ensures r.Some? ==> |r.value| == 5 && forall i :: 0 <= i < 5 ==> IsWord(r.value[i])
    decreases |s|
  {
    match Words(s, 5)
    case Some(found) => Some(found.0)
    case None =>
      var k := IndexOf(s, '\n');
      if k == |s| then None else TimedateFields(s[k + 1..])
  }

  /** What `.*` takes: everything up to the first newline. */
  function LineHead(s: string): (r: string)
    ensures '\n' !in r && r <= s
  {
    s[..IndexOf(s, '\n')]
  }

  /**
   * The command `aLine.scan(/(?:\S+\s+){5}(.*)/).shift[-1]` finds. The leftmost
   * match can only start at the first word, so it needs five words there, each
   * followed by whitespace; the command is the rest of that line.
   */
  function CommandOf(s: string): (r: Option<string>)
    ensures r.Some? ==> '\n' !in r.value
  {
    var t := s[|SpacePrefix(s)|..];
    match Words(t, 5)
    case None => None
    case Some(found) =>
      var w := SpacePrefix(found.1);
      if w == [] then None else Some(LineHead(found.1[|w|..]))
  }

  // ------------------------------------------------------------------
  // Weekday names

  /** The position of `name` in WDAY. */
  function DayNumber(name: string, i: nat): (r: Option<nat>)
    requires i <= |WDAY|
    ensures r.Some? ==> i <= r.value < |WDAY| && WDAY[r.value] == name
    ensures r.None? ==> forall j :: i <= j < |WDAY| ==> WDAY[j] != name
    decreases |WDAY| - i
  {
    if i == |WDAY| then None
    else if WDAY[i] == name then Some(i)
    else DayNumber(name, i + 1)
  }

  /**
   * `gsub(/sun|mon|tue|wed|thu|fri|sut/) { WDAY.index($&) }`: scanning from the
   * left, every day name is replaced by its position in WDAY.
   */
  function ReplaceDayNames(s: string): (r: string)
    ensures |r| <= |s| && (r == [] <==> s == [])
    decreases |s|
  {
    if s == [] then []
    else if |s| >= 3 && DayNumber(s[..3], 0).Some? then
      NatToS(DayNumber(s[..3], 0).value) + ReplaceDayNames(s[3..])
    else [s[0]] + ReplaceDayNames(s[1..])
  }

  // ------------------------------------------------------------------
  // Building an entry

  /** CronEntry#parse_timedate: the five schedule fields, each expanded over its domain. */
  function ParseTimedate(s: string): (r: Result<map<Key, string>>)
    ensures TimedateFields(s).None? ==> r == Err(TooFewFields)
    ensures r.Ok? ==> r.value.Keys == {Minute, Hour, Day, Month, Weekday}
  {
    match TimedateFields(s)
    case None => Err(TooFewFields)
    case Some(f) => ParseSchedule(f[0], f[1], f[2], f[3], ReplaceDayNames(Downcase(f[4])))
  }

  /** The assignments of parse_timedate: each field through parse_field over its domain, in order. */
  function ParseSchedule(minute: string, hour: string, day: string, month: string, weekday: string)
    : (r: Result<map<Key, string>>)
    ensures r.Ok? ==> r.value.Keys == {Minute, Hour, Day, Month, Weekday}
  {
    var m :- ParseField(minute, 0, 59);
    var h :- ParseField(hour, 0, 23);
    var d :- ParseField(day, 1, 31);
    var mo :- ParseField(month, 1, 12);
    var w :- ParseField(weekday, 0, 6);
    Ok(map[Minute := m, Hour := h, Day := d, Month := mo, Weekday := w])
  }

  /** CronEntry#parseTextDef: the schedule fields and the command. */
  function ParseTextDef(s: string): (r: Result<map<Key, string>>)
    ensures r.Ok? ==> ParseTimedate(s).Ok? && r.value.Keys == DEFAULTS.Keys
    ensures r.Ok? ==> '\n' !in r.value[Command]
  {
    var h :- ParseTimedate(s);
    match CommandOf(s)
    case None => Err(TooFewFields)
    case Some(c) => Ok(h[Command := c])
  }

  /** The keys of a hash definition that DEFAULTS does not know. */
  function WrongKeys(pairs: map<Key, string>): set<Key> {
    set k | k in pairs && k !in DEFAULTS
  }

  /** Merging a hash of known keys into DEFAULTS adds no key. */
  lemma KnownKeysKept(pairs: map<Key, string>)
    requires WrongKeys(pairs) == {}
    ensures (DEFAULTS + pairs).Keys == DEFAULTS.Keys
  {
    forall k | k in pairs
      ensures k in DEFAULTS
    {
      assert k !in WrongKeys(pairs);
    }
  }

  /** CronEntry.new(aDef). */
  function NewEntry(def: Definition): (r: Result<CronEntry>)
    ensures r.Ok? ==> r.value.fields.Keys == DEFAULTS.Keys
    ensures def.Text? && r.Ok? ==> r.value.ToS() == def.line
    ensures def.Hash? && r.Ok? ==> r.value.ToS() == r.value.ToRaw()
  {
    match def
    case Text(line) =>
      var fields :- ParseTextDef(line);
      Ok(CronEntry(line, fields))
    case Hash(pairs) =>
      if WrongKeys(pairs) != {} then Err(InvalidConstructs(WrongKeys(pairs)))
      else
        KnownKeysKept(pairs);
        var full := DEFAULTS + pairs;
        Ok(CronEntry(RawOf(full), full))
  }

  // ------------------------------------------------------------------
  // The regular expressions against the word list

  predicate NoSpace(s: string) {
    forall i :: 0 <= i < |s| ==> !IsSpace(s[i])
  }

  /** `\S+` takes a prefix of `s` without whitespace and stops only at whitespace or at the end. */
  lemma {:induction false} NonSpacePrefixShape(s: string)
    ensures var r := NonSpacePrefix(s);
      r == s[..|r|] && NoSpace(r) && (|r| < |s| ==> IsSpace(s[|r|]))
    decreases |s|
  {
    if s != [] && !IsSpace(s[0]) {
      NonSpacePrefixShape(s[1..]);
      var r := NonSpacePrefix(s);
      assert r == [s[0]] + NonSpacePrefix(s[1..]);
      assert forall i :: 1 <= i < |r| ==> r[i] == NonSpacePrefix(s[1..])[i - 1];
    }
  }

  /** `\s+` takes a prefix of `s` of whitespace and stops only at other characters or at the end. */
  lemma {:induction false} SpacePrefixShape(s: string)
    ensures var r := SpacePrefix(s);
      r == s[..|r|] && (forall i :: 0 <= i < |r| ==> IsSpace(r[i])) && (|r| < |s| ==> !IsSpace(s[|r|]))
    decreases |s|
  {
    if s != [] && IsSpace(s[0]) {
      SpacePrefixShape(s[1..]);
      var r := SpacePrefix(s);
      assert r == [s[0]] + SpacePrefix(s[1..]);
      assert forall i :: 1 <= i < |r| ==> r[i] == SpacePrefix(s[1..])[i - 1];
    }
  }

  /** A word followed by whitespace or by nothing is exactly what `\S+` takes. */
  lemma NonSpacePrefixOf(x: string, z: string)
    requires NoSpace(x)
    requires z == [] || IsSpace(z[0])
    ensures NonSpacePrefix(x + z) == x
  {
    var r := NonSpacePrefix(x + z);
    NonSpacePrefixShape(x + z);
    assert forall i :: 0 <= i < |x| ==> (x + z)[i] == x[i];
    assert |x| < |x + z| ==> (x + z)[|x|] == z[0];
    assert |r| == |x|;
    assert r == (x + z)[..|x|] == x;
  }

  /** Leading whitespace is not a word. */
  lemma {:induction false} TokensSkipSpaces(s: string)
    ensures Tokens(s) == Tokens(s[|SpacePrefix(s)|..])
    decreases |s|
  {
    if s != [] && IsSpace(s[0]) {
      TokensSkipSpaces(s[1..]);
      assert s[|SpacePrefix(s)|..] == s[1..][|SpacePrefix(s[1..])|..];
    }
  }

  /**
   * The word regular expression succeeds at the start of `s` exactly when `s`
   * starts with a word and has at least `n` of them, and then it yields the
   * first `n`.
   */
  lemma {:induction false} WordsAreTokens(s: string, n: nat)
    requires n >= 1
    ensures WordsMatchTokens(s, n)
    decreases n, 1
  {
    var t := NonSpacePrefix(s);
    if t == [] {
      NoLeadingWord(s, n);
    } else if n == 1 || |t| == |s| {
      LeadingWordOnly(s, n);
    } else {
      LeadingWordThenMore(s, n);
    }
  }

  /** The property WordsAreTokens proves. */
  predicate WordsMatchTokens(s: string, n: nat)
    requires n >= 1
  {
    (Words(s, n).Some? <==> s != [] && !IsSpace(s[0]) && |Tokens(s)| >= n) &&
    (Words(s, n).Some? ==> Words(s, n).value.0 == Tokens(s)[..n])
  }

  lemma NoLeadingWord(s: string, n: nat)
    requires n >= 1 && NonSpacePrefix(s) == []
    ensures WordsMatchTokens(s, n)
  {
    assert s == [] || IsSpace(s[0]);
  }

  lemma LeadingWordOnly(s: string, n: nat)
    requires n >= 1
    requires NonSpacePrefix(s) != [] && (n == 1 || |NonSpacePrefix(s)| == |s|)
    ensures WordsMatchTokens(s, n)
  {
    var t := NonSpacePrefix(s);
    assert s[0] == t[0];
    var rest := s[|t|..];
    assert Tokens(s) == [t] + Tokens(rest);
    if n > 1 {
      assert SpacePrefix(rest) == [];
    }
  }

  lemma {:induction false} LeadingWordThenMore(s: string, n: nat)
    requires n >= 2
    requires NonSpacePrefix(s) != [] && |NonSpacePrefix(s)| < |s|
    ensures WordsMatchTokens(s, n)
    decreases n, 0
  {
    var t := NonSpacePrefix(s);
    NonSpacePrefixShape(s);
    assert s[0] == t[0];
    var rest := s[|t|..];
    assert Tokens(s) == [t] + Tokens(rest);
    WordsAfterSpace(rest, n - 1);
    WordsUnfold(s, n);
    if |Tokens(rest)| >= n - 1 {
      assert Tokens(s)[..n] == [t] + Tokens(rest)[..n - 1];
    }
  }

  /** One step of the word expression: a word, whitespace, and the remaining words. */
  lemma WordsUnfold(s: string, n: nat)
    requires n >= 2
    requires NonSpacePrefix(s) != [] && |NonSpacePrefix(s)| < |s|
    ensures var rest := s[|NonSpacePrefix(s)|..];
      var u := rest[|SpacePrefix(rest)|..];
      (Words(s, n).Some? <==> Words(u, n - 1).Some?) &&
      (Words(s, n).Some? ==> Words(s, n).value.0 == [NonSpacePrefix(s)] + Words(u, n - 1).value.0)
  {
    var rest := s[|NonSpacePrefix(s)|..];
    NonSpacePrefixShape(s);
    assert IsSpace(rest[0]);
  }

  /** After a word's whitespace the expression goes on with the remaining words. */
  lemma {:induction false} WordsAfterSpace(rest: string, n: nat)
    requires n >= 1 && rest != [] && IsSpace(rest[0])
    ensures var u := rest[|SpacePrefix(rest)|..];
      (Words(u, n).Some? <==> |Tokens(rest)| >= n) &&
      (Words(u, n).Some? ==> Words(u, n).value.0 == Tokens(rest)[..n])
    decreases n, 2
  {
    TokensSkipSpaces(rest);
    var u := rest[|SpacePrefix(rest)|..];
    WordsAreTokens(u, n);
    if u != [] {
      SpacePrefixShape(rest);
      assert !IsSpace(u[0]);
    }
  }

  /** One word, a whitespace character, then text that starts with a word (or is empty). */
  lemma WordsStep(s: string, x: string, c: char, y: string, n: nat, ws: seq<string>, after: string)
    requires n >= 2 && x != [] && NoSpace(x) && IsSpace(c)
    requires y == [] || !IsSpace(y[0])
    requires Words(y, n - 1) == Some((ws, after))
    requires s == x + [c] + y
    ensures Words(s, n) == Some(([x] + ws, after))
  {
    assert s == x + ([c] + y);
    NonSpacePrefixOf(x, [c] + y);
    assert s[|x|..] == [c] + y;
    assert ([c] + y)[1..] == y;
    assert SpacePrefix([c] + y) == [c];
  }

  /** The last word, followed by whitespace or by nothing. */
  lemma WordsLast(x: string, z: string)
    requires x != [] && NoSpace(x)
    requires z == [] || IsSpace(z[0])
    ensures Words(x + z, 1) == Some(([x], z))
  {
    NonSpacePrefixOf(x, z);
    assert (x + z)[|x|..] == z;
  }

  /** What `\S+` matches: a non-empty run of characters that are not whitespace. */
  predicate IsWord(x: string) {
    x != [] && NoSpace(x)
  }

  /** The words `f` separated by the whitespace character `c`, then `tail`. */
  function Line(f: seq<string>, c: char, tail: string): string
    requires f != []
    decreases |f|
  {
    if |f| == 1 then f[0] + tail else f[0] + [c] + Line(f[1..], c, tail)
  }

  /** A line starts with its first word's first character. */
  lemma LineStart(f: seq<string>, c: char, tail: string)
    requires f != [] && f[0] != []
    ensures Line(f, c, tail) != [] && Line(f, c, tail)[0] == f[0][0]
  {
  }

  /** Words separated by whitespace are read back one by one. */
  lemma {:induction false} WordsOfLine(f: seq<string>, c: char, tail: string)
    requires f != [] && forall i :: 0 <= i < |f| ==> IsWord(f[i])
    requires IsSpace(c)
    requires tail == [] || IsSpace(tail[0])
    ensures Words(Line(f, c, tail), |f|) == Some((f, tail))
    decreases |f|
  {
    if |f| == 1 {
      WordsLast(f[0], tail);
      assert [f[0]] == f;
    } else {
      forall i | 0 <= i < |f| - 1
        ensures IsWord(f[1..][i])
      {
        assert f[1..][i] == f[i + 1];
      }
      WordsOfLine(f[1..], c, tail);
      WordsOfLineStep(f, c, tail);
    }
  }

  /** One more word in front: the word is read, then the words of the rest. */
  lemma WordsOfLineStep(f: seq<string>, c: char, tail: string)
    requires |f| >= 2 && IsWord(f[0]) && f[1] != [] && IsSpace(c)
    requires !IsSpace(f[1][0])
    requires Words(Line(f[1..], c, tail), |f| - 1) == Some((f[1..], tail))
    ensures Words(Line(f, c, tail), |f|) == Some((f, tail))
  {
    var y := Line(f[1..], c, tail);
    LineStart(f[1..], c, tail);
    HeadTail(f);
    WordsStep(Line(f, c, tail), f[0], c, y, |f|, f[1..], tail);
  }

  /** parse_timedate reads the five fields of such a line from its first line. */
  lemma TimedateOfFive(f: seq<string>, c: char, tail: string)
    requires |f| == 5 && forall i :: 0 <= i < 5 ==> IsWord(f[i])
    requires IsSpace(c)
    requires tail == [] || IsSpace(tail[0])
    ensures TimedateFields(Line(f, c, tail)) == Some(f)
  {
    WordsOfLine(f, c, tail);
  }

  /** parseTextDef's command is the text after the whitespace that follows the fifth field, up to the line's end. */
  lemma CommandOfFive(f: seq<string>, c: char, cmd: string)
    requires |f| == 5 && forall i :: 0 <= i < 5 ==> IsWord(f[i])
    requires IsSpace(c)
    requires cmd == [] || !IsSpace(cmd[0])
    ensures CommandOf(Line(f, c, [c] + cmd)) == Some(LineHead(cmd))
  {
    var s := Line(f, c, [c] + cmd);
    assert s[0] == f[0][0];
    assert SpacePrefix(s) == [];
    assert s[|SpacePrefix(s)|..] == s;
    WordsOfLine(f, c, [c] + cmd);
    assert SpacePrefix([c] + cmd) == [c] by {
      assert ([c] + cmd)[1..] == cmd;
    }
    assert ([c] + cmd)[1..] == cmd;
  }

  /**
   * A single line with fewer than five words, or with leading whitespace, has no
   * time and date fields: CronEntry.new fails on it.
   */
  lemma TooFewWords(line: string)
    requires '\n' !in line
    requires |Tokens(line)| < 5 || (line != [] && IsSpace(line[0]))
    ensures TimedateFields(line) == None
    ensures NewEntry(Text(line)) == Err(TooFewFields)
  {
    WordsAreTokens(line, 5);
    IndexOfAbsent(line, '\n');
  }

  /** A line of words is their join followed by the tail. */
  lemma {:induction false} LineIsJoin(f: seq<string>, c: char, tail: string)
    requires f != []
    ensures Line(f, c, tail) == Join(f, c) + tail
    decreases |f|
  {
    if |f| > 1 {
      LineIsJoin(f[1..], c, tail);
    }
  }

  // ------------------------------------------------------------------
  // Weekday names

  lemma DayNamesDistinct()
    ensures forall i, j :: 0 <= i < j < |WDAY| ==> WDAY[i] != WDAY[j]
    ensures forall i :: 0 <= i < |WDAY| ==> |WDAY[i]| == 3 && 'a' <= WDAY[i][0] <= 'z'
  {
  }

  /** A day name at the front is replaced by its number. */
  lemma DayNameReplaced(k: nat, rest: string)
    requires k < |WDAY|
    ensures ReplaceDayNames(WDAY[k] + rest) == NatToS(k) + ReplaceDayNames(rest)
  {
    DayNamesDistinct();
    var s := WDAY[k] + rest;
    assert s[..3] == WDAY[k];
    assert s[3..] == rest;
    assert DayNumber(WDAY[k], 0) == Some(k);
  }

  /** Text of digits and commas, such as the output of parse_field. */
  predicate CommaDigits(s: string) {
    forall i :: 0 <= i < |s| ==> IsDigit(s[i]) || s[i] == ','
  }

  /** Text with no letters goes through the day-name replacement unchanged. */
  lemma {:induction false} CommaDigitsKeepNames(s: string)
    requires CommaDigits(s)
    ensures ReplaceDayNames(s) == s
    decreases |s|
  {
    if s != [] {
      if |s| >= 3 {
        DayNamesDistinct();
        forall k | 0 <= k < |WDAY| ensures WDAY[k] != s[..3] {
          assert WDAY[k][0] != s[..3][0];
        }
      }
      CommaDigitsKeepNames(s[1..]);
      assert [s[0]] + s[1..] == s;
    }
  }

  /** What parse_field writes is left alone by the weekday field's downcase and day-name replacement. */
  lemma CommaDigitsKept(s: string)
    requires CommaDigits(s)
    ensures NoSpace(s)
    ensures ReplaceDayNames(Downcase(s)) == s
  {
    assert Downcase(s) == s;
    CommaDigitsKeepNames(s);
  }

  /** A character that does not start a day name is copied as it is. */
  lemma NoNameAtFront(s: string)
    requires s != [] && (|s| < 3 || s[..3] !in WDAY)
    ensures ReplaceDayNames(s) == [s[0]] + ReplaceDayNames(s[1..])
  {
  }

  /** Day names start with a lower-case letter, so any other character is copied. */
  lemma NonLetterKept(s: string)
    requires s != [] && !('a' <= s[0] <= 'z')
    ensures ReplaceDayNames(s) == [s[0]] + ReplaceDayNames(s[1..])
  {
    DayNamesDistinct();
    if |s| >= 3 {
      assert s[..3][0] == s[0];
    }
    NoNameAtFront(s);
  }

  lemma FriReplaced()
    ensures ReplaceDayNames("fri") == "5"
  {
    assert "fri" == WDAY[5] + "";
    DayNameReplaced(5, "");
  }

  lemma DashFriReplaced()
    ensures ReplaceDayNames("-fri") == "-5"
  {
    FriReplaced();
    NonLetterKept("-fri");
    assert "-fri"[1..] == "fri";
  }

  /** The working days, written by name: `"Mon-Fri"` becomes the range `"1-5"`. */
  lemma WorkingDays()
    ensures ReplaceDayNames(Downcase("Mon-Fri")) == "1-5"
  {
    DashFriReplaced();
    assert "mon-fri" == WDAY[1] + "-fri";
    DayNameReplaced(1, "-fri");
    DowncaseWorkingDays();
  }

  lemma DowncaseWorkingDays()
    ensures Downcase("Mon-Fri") == "mon-fri"
  {
  }

  /** Saturday is known only under the library's spelling "sut": "sat" stays as it is. */
  lemma SaturdaySpelling()
    ensures ReplaceDayNames("sut") == "6"
    ensures ReplaceDayNames("sat") == "sat"
  {
    assert ReplaceDayNames("sut") == "6" by {
      DayNameReplaced(6, "");
      assert WDAY[6] + "" == "sut";
    }
    assert ReplaceDayNames("at") == "at" by {
      NoNameAtFront("at");
      NoNameAtFront("t");
      assert "at"[1..] == "t" && "t"[1..] == "";
    }
    assert ReplaceDayNames("sat") == "sat" by {
      assert "sat"[..3] == "sat" && "sat" !in WDAY;
      NoNameAtFront("sat");
      assert "sat"[1..] == "at";
    }
  }

  // ------------------------------------------------------------------
  // The two forms of an entry

  /** A list of non-negative values as parse_field writes it. */
  predicate Written(vs: seq<int>) {
    vs != [] && forall i :: 0 <= i < |vs| ==> vs[i] >= 0
  }

  lemma {:induction false} RenderIsCommaDigits(vs: seq<int>)
    requires Written(vs)
    ensures Render(vs) != [] && CommaDigits(Render(vs))
    decreases |vs|
  {
    if |vs| == 1 {
      assert Render(vs) == IntToS(vs[0]) == NatToS(vs[0]);
      NatToSDigits(vs[0]);
    } else {
      RenderIsCommaDigits(vs[1..]);
      RenderIsCommaDigits([vs[0]]);
      assert [vs[0]] + vs[1..] == vs;
      RenderAppend([vs[0]], vs[1..]);
    }
  }

  /** The hash of a canonical entry: five fields as parse_field writes them and a one-line command. */
  function Schedule(minute: seq<int>, hour: seq<int>, day: seq<int>, month: seq<int>, weekday: seq<int>,
                    command: string): map<Key, string>
  {
    map[Minute := Render(minute), Hour := Render(hour), Day := Render(day), Month := Render(month),
        Weekday := Render(weekday), Command := command]
  }

  /** The line `to_raw` writes for such a hash is its five fields, then a tab and the command. */
  lemma RawOfSchedule(h: map<Key, string>, f: seq<string>, command: string)
    requires |f| == 5
    requires Values(h) == f + [command]
    ensures RawOf(h) == Line(f, '\t', "\t" + command)
  {
    FieldsThenLast(f, command);
  }

  /** Joining fields and one more value with tabs puts a tab and that value after the fields. */
  lemma FieldsThenLast(f: seq<string>, last: string)
    requires f != []
    ensures Join(f + [last], '\t') == Line(f, '\t', "\t" + last)
  {
    var j := Join(f, '\t');
    assert Join(f + [last], '\t') == j + ['\t'] + last by {
      JoinAppend(f, [last], '\t');
    }
    assert Line(f, '\t', "\t" + last) == j + "\t" + last by {
      LineIsJoin(f, '\t', "\t" + last);
    }
  }

  /**
   * The text definition of an entry round-trips: parsing the line `to_raw` writes
   * for a canonical hash gives back that same hash.
   */
  lemma TextRoundTrip(minute: seq<int>, hour: seq<int>, day: seq<int>, month: seq<int>, weekday: seq<int>,
                      command: string)
    requires Written(minute) && Written(hour) && Written(day) && Written(month) && Written(weekday)
    requires '\n' !in command && (command == [] || !IsSpace(command[0]))
    ensures var h := Schedule(minute, hour, day, month, weekday, command);
      NewEntry(Text(RawOf(h))) == Ok(CronEntry(RawOf(h), h))
  {
    var h := Schedule(minute, hour, day, month, weekday, command);
    var f := [Render(minute), Render(hour), Render(day), Render(month), Render(weekday)];
    ScheduleLine(minute, hour, day, month, weekday, command);
    WrittenTimedate(RawOf(h), minute, hour, day, month, weekday);
    FieldsThenCommand(f, command);
  }

  /** parse_timedate of a line whose five fields parse_field wrote gives those fields back. */
  lemma WrittenTimedate(s: string, minute: seq<int>, hour: seq<int>, day: seq<int>, month: seq<int>,
                        weekday: seq<int>)
    requires Written(minute) && Written(hour) && Written(day) && Written(month) && Written(weekday)
    requires TimedateFields(s) == Some([Render(minute), Render(hour), Render(day), Render(month), Render(weekday)])
    ensures ParseTimedate(s) == Ok(map[Minute := Render(minute), Hour := Render(hour), Day := Render(day),
                                       Month := Render(month), Weekday := Render(weekday)])
  {
    WrittenFieldKept(minute, 0, 59); WrittenFieldKept(hour, 0, 23); WrittenFieldKept(day, 1, 31);
    WrittenFieldKept(month, 1, 12); WrittenFieldKept(weekday, 0, 6);
    ParseTimedateOf(s, Render(minute), Render(hour), Render(day), Render(month), Render(weekday));
  }

  /** The line `to_raw` writes for a schedule splits back into its five fields and its command. */
  lemma ScheduleLine(minute: seq<int>, hour: seq<int>, day: seq<int>, month: seq<int>, weekday: seq<int>,
                     command: string)
    requires Written(minute) && Written(hour) && Written(day) && Written(month) && Written(weekday)
    requires '\n' !in command && (command == [] || !IsSpace(command[0]))
    ensures var raw := RawOf(Schedule(minute, hour, day, month, weekday, command));
      TimedateFields(raw) == Some([Render(minute), Render(hour), Render(day), Render(month), Render(weekday)]) &&
      CommandOf(raw) == Some(command)
  {
    var h := Schedule(minute, hour, day, month, weekday, command);
    var f := [Render(minute), Render(hour), Render(day), Render(month), Render(weekday)];
    assert forall i :: 0 <= i < 5 ==> IsWord(f[i]) by {
      RenderIsWord(minute); RenderIsWord(hour); RenderIsWord(day); RenderIsWord(month); RenderIsWord(weekday);
    }
    ValuesOfSchedule(minute, hour, day, month, weekday, command);
    RawOfSchedule(h, f, command);
    TimedateOfFive(f, '\t', "\t" + command);
    CommandOfFive(f, '\t', command);
    LineHeadOfLine(command);
  }

  /** A text without a newline is its own first line. */
  lemma LineHeadOfLine(s: string)
    requires '\n' !in s
    ensures LineHead(s) == s
  {
    IndexOfAbsent(s, '\n');
  }

  lemma RenderIsWord(vs: seq<int>)
    requires Written(vs)
    ensures IsWord(Render(vs))
  {
    RenderIsCommaDigits(vs);
    CommaDigitsKept(Render(vs));
  }

  /** The values `to_raw` writes for a schedule, in order. */
  lemma ValuesOfSchedule(minute: seq<int>, hour: seq<int>, day: seq<int>, month: seq<int>, weekday: seq<int>,
                         command: string)
    ensures Values(Schedule(minute, hour, day, month, weekday, command))
         == [Render(minute), Render(hour), Render(day), Render(month), Render(weekday)] + [command]
  {
  }

  /** A field that parse_field wrote reads back unchanged, and it is one whitespace-free word. */
  lemma WrittenFieldKept(vs: seq<int>, first: int, last: int)
    requires Written(vs)
    ensures ParseField(Render(vs), first, last) == Ok(Render(vs))
    ensures ReplaceDayNames(Downcase(Render(vs))) == Render(vs)
  {
    RenderIsCommaDigits(vs);
    CommaDigitsKept(Render(vs));
    RenderExpands(vs, first, last);
  }

  /** parse_timedate of a line whose five fields each read back unchanged gives those fields. */
  lemma ParseTimedateOf(s: string, minute: string, hour: string, day: string, month: string, weekday: string)
    requires TimedateFields(s) == Some([minute, hour, day, month, weekday])
    requires ParseField(minute, 0, 59) == Ok(minute) && ParseField(hour, 0, 23) == Ok(hour)
    requires ParseField(day, 1, 31) == Ok(day) && ParseField(month, 1, 12) == Ok(month)
    requires ReplaceDayNames(Downcase(weekday)) == weekday && ParseField(weekday, 0, 6) == Ok(weekday)
    ensures ParseTimedate(s) == Ok(map[Minute := minute, Hour := hour, Day := day, Month := month, Weekday := weekday])
  {
    var f := [minute, hour, day, month, weekday];
    assert f[0] == minute && f[1] == hour && f[2] == day && f[3] == month && f[4] == weekday;
    ScheduleOf(minute, hour, day, month, weekday);
  }

  lemma ScheduleOf(minute: string, hour: string, day: string, month: string, weekday: string)
    requires ParseField(minute, 0, 59) == Ok(minute) && ParseField(hour, 0, 23) == Ok(hour)
    requires ParseField(day, 1, 31) == Ok(day) && ParseField(month, 1, 12) == Ok(month)
    requires ParseField(weekday, 0, 6) == Ok(weekday)
    ensures ParseSchedule(minute, hour, day, month, weekday)
         == Ok(map[Minute := minute, Hour := hour, Day := day, Month := month, Weekday := weekday])
  {
  }

  /** The five schedule fields with the command added are the hash of all six. */
  lemma FieldsThenCommand(f: seq<string>, command: string)
    requires |f| == 5
    ensures map[Minute := f[0], Hour := f[1], Day := f[2], Month := f[3], Weekday := f[4]][Command := command]
         == map[Minute := f[0], Hour := f[1], Day := f[2], Month := f[3], Weekday := f[4], Command := command]
  {
  }

  /**
   * CronEntry.new with a hash: it fails exactly when a key is not one of the six
   * known ones, naming those keys; otherwise every known key holds the given value
   * or its default, and the text form is `to_raw` of that hash.
   */
  lemma HashEntry(pairs: map<Key, string>)
    ensures NewEntry(Hash(pairs)).Err? <==> exists k :: k in pairs && k.Other?
    ensures NewEntry(Hash(pairs)).Err? ==>
      NewEntry(Hash(pairs)).error == InvalidConstructs(set k | k in pairs && k.Other?)
    ensures NewEntry(Hash(pairs)).Ok? ==>
      var e := NewEntry(Hash(pairs)).value;
      e.fields.Keys == DEFAULTS.Keys &&
      (forall k :: k in DEFAULTS ==> e.fields[k] == if k in pairs then pairs[k] else DEFAULTS[k]) &&
      e.ToS() == e.ToRaw()
  {
    assert forall k :: k in DEFAULTS <==> !k.Other?;
    assert WrongKeys(pairs) == set k | k in pairs && k.Other?;
    if exists k :: k in pairs && k.Other? {
      var k :| k in pairs && k.Other?;
      assert k in WrongKeys(pairs);
    } else {
      assert WrongKeys(pairs) == {};
      KnownPairsEntry(pairs);
    }
  }

  /** Without unknown keys, the entry's hash is DEFAULTS overridden by the given pairs. */
  lemma KnownPairsEntry(pairs: map<Key, string>)
    requires WrongKeys(pairs) == {}
    ensures var e := NewEntry(Hash(pairs));
      e.Ok? && e.value.fields.Keys == DEFAULTS.Keys &&
      (forall k :: k in DEFAULTS ==> e.value.fields[k] == if k in pairs then pairs[k] else DEFAULTS[k]) &&
      e.value.ToS() == e.value.ToRaw()
  {
    var full := DEFAULTS + pairs;
    assert NewEntry(Hash(pairs)) == Ok(CronEntry(RawOf(full), full));
    assert forall k :: k in pairs ==> k in DEFAULTS by {
      forall k | k in pairs
        ensures k in DEFAULTS
      {
        assert k !in WrongKeys(pairs);
      }
    }
  }

  /**
   * Whatever the definition, a constructed entry answers `[]` for exactly the six
   * keys of DEFAULTS; `to_s` is the text definition as given, or `to_raw` of the
   * hash for a hash definition.
   */
  lemma EntryForms(def: Definition)
    requires NewEntry(def).Ok?
    ensures forall k :: NewEntry(def).value.Get(k).Some? <==> k in DEFAULTS
    ensures NewEntry(def).value.ToHash().Keys == DEFAULTS.Keys
    ensures def.Text? ==> NewEntry(def).value.ToS() == def.line
    ensures def.Hash? ==> NewEntry(def).value.ToS() == NewEntry(def).value.ToRaw()
  {
    match def
    case Text(line) =>
      TextEntryKeys(line);
    case Hash(pairs) =>
      HashEntry(pairs);
  }

  /** The hash of a text entry holds the five schedule fields and the command. */
  lemma TextEntryKeys(line: string)
    requires NewEntry(Text(line)).Ok?
    ensures NewEntry(Text(line)).value.fields.Keys == DEFAULTS.Keys
    ensures NewEntry(Text(line)).value.raw == line
  {
    var h := ParseTextDef(line).value;
    assert h.Keys == DEFAULTS.Keys by {
      TimedateKeys(line);
    }
  }

  /** parse_timedate sets the five schedule fields. */
  lemma TimedateKeys(s: string)
    requires ParseTimedate(s).Ok?
    ensures ParseTimedate(s).value.Keys == {Minute, Hour, Day, Month, Weekday}
  {
    var f := TimedateFields(s).value;
    var w := ReplaceDayNames(Downcase(f[4]));
    assert ParseTimedate(s) == Ok(map[Minute := ParseField(f[0], 0, 59).value, Hour := ParseField(f[1], 0, 23).value,
                                      Day := ParseField(f[2], 1, 31).value, Month := ParseField(f[3], 1, 12).value,
                                      Weekday := ParseField(w, 0, 6).value]);
  }

  /** A hash holding all six keys is taken as it is. */
  lemma FullHashEntry(h: map<Key, string>)
    requires h.Keys == DEFAULTS.Keys
    ensures NewEntry(Hash(h)) == Ok(CronEntry(RawOf(h), h))
  {
    assert forall k :: k in DEFAULTS <==> !k.Other?;
    assert WrongKeys(h) == {};
    assert DEFAULTS + h == h;
  }

  /**
   * Both forms agree: the text an entry built from a canonical hash writes parses
   * back to the same entry.
   */
  lemma HashAndTextAgree(minute: seq<int>, hour: seq<int>, day: seq<int>, month: seq<int>, weekday: seq<int>,
                         command: string)
    requires Written(minute) && Written(hour) && Written(day) && Written(month) && Written(weekday)
    requires '\n' !in command && (command == [] || !IsSpace(command[0]))
    ensures var e := NewEntry(Hash(Schedule(minute, hour, day, month, weekday, command)));
      e.Ok? && NewEntry(Text(e.value.ToS())) == e
  {
    var h := Schedule(minute, hour, day, month, weekday, command);
    FullHashEntry(h);
    TextRoundTrip(minute, hour, day, month, weekday, command);
  }

  // ------------------------------------------------------------------
  // Cases from the library's tests

  /** Five words joined, written out. */
  lemma JoinFive(f: seq<string>, c: char)
    requires |f| == 5
    ensures Join(f, c) == f[0] + [c] + f[1] + [c] + f[2] + [c] + f[3] + [c] + f[4]
  {
    assert Join(f[4..], c) == f[4] by {
      assert f[4..] == [f[4]];
    }
    assert Join(f[3..], c) == f[3] + [c] + Join(f[4..], c) by {
      assert f[3..][0] == f[3] && f[3..][1..] == f[4..];
    }
    assert Join(f[2..], c) == f[2] + [c] + Join(f[3..], c) by {
      assert f[2..][0] == f[2] && f[2..][1..] == f[3..];
    }
    assert Join(f[1..], c) == f[1] + [c] + Join(f[2..], c) by {
      assert f[1..][0] == f[1] && f[1..][1..] == f[2..];
    }
  }

  /** The line `to_raw` writes, spelled out: five values, a tab, the command. */
  lemma RawOfWritten(h: map<Key, string>)
    ensures RawOf(h) == Value(h, Minute) + "\t" + Value(h, Hour) + "\t" + Value(h, Day) + "\t"
      + Value(h, Month) + "\t" + Value(h, Weekday) + "\t" + Value(h, Command)
  {
    var f := Values(h)[..5];
    assert Values(h) == f + [Value(h, Command)];
    JoinAppend(f, [Value(h, Command)], '\t');
    JoinFive(f, '\t');
  }

  /**
   * The lines of the library's tests. Each line is written as the concatenation of
   * its fields and separators, the shape in which Line and to_raw produce it.
   */
  const EXAMPLE_LINE := "5,35" + " " + "0-23/2" + " " + "*" + " " + "*" + " " + "*" + " " + "echo 123"
  const EXAMPLE_FIELDS: seq<string> := ["5,35", "0-23/2", "*", "*", "*"]
  const EXAMPLE_COMMAND := "echo 123"
  const EVEN_HOURS: seq<int> := [0, 2, 4, 6, 8, 10, 12, 14, 16, 18, 20, 22]
  const MONTH_DAYS: seq<int> := seq(31, i => i + 1)
  const MONTHS: seq<int> := seq(12, i => i + 1)
  const WEEKDAYS: seq<int> := seq(7, i => i)
  const OUT_OF_RANGE_LINE := "1-85" + " " + "2" + " " + "*" + " " + "*" + " " + "*" + " " + "echo 123"
  const OUT_OF_RANGE_FIELDS: seq<string> := ["1-85", "2", "*", "*", "*"]
  const DEFAULT_RAW := "*" + "\t" + "*" + "\t" + "*" + "\t" + "*" + "\t" + "*" + "\t" + ""
  const MINUTE_AND_COMMAND: map<Key, string> := map[Minute := "5", Command := "echo 42"]
  const MINUTE_AND_COMMAND_RAW := "5" + "\t" + "*" + "\t" + "*" + "\t" + "*" + "\t" + "*" + "\t" + "echo 42"

  /** `CronEntry.new` with no argument writes five stars and an empty command. */
  lemma DefaultEntry()
    ensures NewEntry(Hash(map[])) == Ok(CronEntry(DEFAULT_RAW, DEFAULTS))
  {
    var none: map<Key, string> := map[];
    assert WrongKeys(none) == {};
    assert DEFAULTS + none == DEFAULTS;
    DefaultRaw();
  }

  lemma DefaultRaw()
    ensures RawOf(DEFAULTS) == DEFAULT_RAW
  {
    RawOfWritten(DEFAULTS);
    assert Value(DEFAULTS, Minute) == "*" && Value(DEFAULTS, Hour) == "*" && Value(DEFAULTS, Day) == "*";
    assert Value(DEFAULTS, Month) == "*" && Value(DEFAULTS, Weekday) == "*" && Value(DEFAULTS, Command) == "";
  }

  /** A hash with a minute and a command: the other fields take their defaults. */
  lemma MinuteAndCommand()
    ensures NewEntry(Hash(MINUTE_AND_COMMAND)).Ok?
    ensures NewEntry(Hash(MINUTE_AND_COMMAND)).value.ToS() == MINUTE_AND_COMMAND_RAW
  {
    var pairs := MINUTE_AND_COMMAND;
    assert WrongKeys(pairs) == {};
    MinuteAndCommandRaw();
  }

  lemma MinuteAndCommandRaw()
    ensures RawOf(DEFAULTS + MINUTE_AND_COMMAND) == MINUTE_AND_COMMAND_RAW
  {
    var full := DEFAULTS + MINUTE_AND_COMMAND;
    RawOfWritten(full);
    assert Value(full, Minute) == "5" && Value(full, Hour) == "*" && Value(full, Day) == "*";
    assert Value(full, Month) == "*" && Value(full, Weekday) == "*" && Value(full, Command) == "echo 42";
  }

  /** An unknown key such as `minuteZ` is refused. */
  lemma UnknownKey()
    ensures NewEntry(Hash(map[Other("minuteZ") := "5", Command := "echo 42"]))
         == Err(InvalidConstructs({Other("minuteZ")}))
  {
    var pairs := map[Other("minuteZ") := "5", Command := "echo 42"];
    assert Other("minuteZ") in WrongKeys(pairs);
    assert WrongKeys(pairs) == {Other("minuteZ")};
  }

  lemma StarIsWeekdayStar()
    ensures ReplaceDayNames(Downcase("*")) == "*"
  {
    assert Downcase("*") == "*";
    assert ReplaceDayNames("*") == "*";
  }

  lemma ExampleWords()
    ensures forall i :: 0 <= i < 5 ==> IsWord(EXAMPLE_FIELDS[i])
  {
    var f := EXAMPLE_FIELDS;
    assert IsWord(f[0]) && IsWord(f[1]) && IsWord(f[2]) && IsWord(f[3]) && IsWord(f[4]);
  }

  /** Five words and a command, separated by single spaces, spelled out. */
  lemma LineOfFive(f: seq<string>, c: char, cmd: string)
    requires |f| == 5
    ensures Line(f, c, [c] + cmd) == f[0] + [c] + f[1] + [c] + f[2] + [c] + f[3] + [c] + f[4] + [c] + cmd
  {
    LineIsJoin(f, c, [c] + cmd);
    JoinFive(f, c);
  }

  /** The example line is five words and a command, separated by single spaces. */
  lemma ExampleIsLine()
    ensures Line(EXAMPLE_FIELDS, ' ', [' '] + EXAMPLE_COMMAND) == EXAMPLE_LINE
  {
    LineOfFive(EXAMPLE_FIELDS, ' ', EXAMPLE_COMMAND);
  }

  /** The fields of the example line, as the regular expressions split them. */
  lemma ExampleLine()
    ensures TimedateFields(EXAMPLE_LINE) == Some(EXAMPLE_FIELDS)
    ensures CommandOf(EXAMPLE_LINE) == Some(EXAMPLE_COMMAND)
  {
    ExampleWords();
    ExampleIsLine();
    assert TimedateFields(EXAMPLE_LINE) == Some(EXAMPLE_FIELDS) by {
      TimedateOfFive(EXAMPLE_FIELDS, ' ', [' '] + EXAMPLE_COMMAND);
    }
    assert CommandOf(EXAMPLE_LINE) == Some(EXAMPLE_COMMAND) by {
      ExampleCommandOneLine();
      CommandOfFive(EXAMPLE_FIELDS, ' ', EXAMPLE_COMMAND);
    }
  }

  lemma ExampleCommandOneLine()
    ensures LineHead(EXAMPLE_COMMAND) == EXAMPLE_COMMAND
  {
    var c := EXAMPLE_COMMAND;
    assert forall i :: 0 <= i < |c| ==> c[i] != '\n';
    IndexOfAbsent(c, '\n');
  }

  /**
   * A text entry keeps its line as written and expands its fields: minutes 5 and
   * 35, every even hour, every day of the month, every month and every weekday,
   * and the command.
   */
  lemma ExampleEntry()
    ensures NewEntry(Text(EXAMPLE_LINE)) == Ok(CronEntry(EXAMPLE_LINE, map[
      Minute := "5,35", Hour := Render(EVEN_HOURS), Day := Render(MONTH_DAYS),
      Month := Render(MONTHS), Weekday := Render(WEEKDAYS), Command := EXAMPLE_COMMAND]))
  {
    ExampleLine();
    ExampleMinutes();
    ExampleHours();
    ExampleDays();
    ExampleMonths();
    ExampleWeekdays();
    TextEntryOfParts(EXAMPLE_LINE, EXAMPLE_FIELDS, EXAMPLE_COMMAND, "5,35", Render(EVEN_HOURS),
      Render(MONTH_DAYS), Render(MONTHS), Render(WEEKDAYS));
  }

  /** CronEntry.new with a line: the line is kept and its hash is the five expanded fields and the command. */
  lemma TextEntryOfParts(line: string, f: seq<string>, command: string, minute: string, hour: string,
                         day: string, month: string, weekday: string)
    requires TimedateFields(line) == Some(f) && CommandOf(line) == Some(command)
    requires ParseField(f[0], 0, 59) == Ok(minute) && ParseField(f[1], 0, 23) == Ok(hour)
    requires ParseField(f[2], 1, 31) == Ok(day) && ParseField(f[3], 1, 12) == Ok(month)
    requires ParseField(ReplaceDayNames(Downcase(f[4])), 0, 6) == Ok(weekday)
    ensures NewEntry(Text(line)) == Ok(CronEntry(line, map[Minute := minute, Hour := hour, Day := day,
      Month := month, Weekday := weekday, Command := command]))
  {
    assert ParseTimedate(line) == Ok(map[Minute := minute, Hour := hour, Day := day, Month := month, Weekday := weekday]);
  }

  lemma ExampleMinutes()
    ensures ParseField(EXAMPLE_FIELDS[0], 0, 59) == Ok("5,35")
  {
    MinuteList();
  }

  lemma ExampleHours()
    ensures ParseField(EXAMPLE_FIELDS[1], 0, 23) == Ok(Render(EVEN_HOURS))
  {
    assert EXAMPLE_FIELDS[1] == "0-23/2";
    HourEveryTwo();
    ParseFieldOf("0-23/2", 0, 23, EVEN_HOURS);
  }

  lemma ExampleDays()
    ensures ParseField(EXAMPLE_FIELDS[2], 1, 31) == Ok(Render(MONTH_DAYS))
  {
    assert EXAMPLE_FIELDS[2] == "*";
    EveryDay();
    ParseFieldOf("*", 1, 31, MONTH_DAYS);
  }

  lemma ExampleMonths()
    ensures ParseField(EXAMPLE_FIELDS[3], 1, 12) == Ok(Render(MONTHS))
  {
    assert EXAMPLE_FIELDS[3] == "*";
    EveryMonth();
    ParseFieldOf("*", 1, 12, MONTHS);
  }

  lemma ExampleWeekdays()
    ensures ParseField(ReplaceDayNames(Downcase(EXAMPLE_FIELDS[4])), 0, 6) == Ok(Render(WEEKDAYS))
  {
    assert EXAMPLE_FIELDS[4] == "*";
    StarIsWeekdayStar();
    EveryWeekday();
    ParseFieldOf("*", 0, 6, WEEKDAYS);
  }

  /** A minute range reaching 85 is out of range: CronEntry::FormatError. */
  lemma MinuteRangeRefused()
    ensures NewEntry(Text(OUT_OF_RANGE_LINE)) == Err(FormatError("85", 59))
  {
    OutOfRangeFields();
    assert ParseField(OUT_OF_RANGE_FIELDS[0], 0, 59) == Err(FormatError("85", 59)) by {
      MinuteOutOfRange();
    }
  }

  lemma OutOfRangeFields()
    ensures TimedateFields(OUT_OF_RANGE_LINE) == Some(OUT_OF_RANGE_FIELDS)
  {
    OutOfRangeWords();
    OutOfRangeIsLine();
    TimedateOfFive(OUT_OF_RANGE_FIELDS, ' ', [' '] + EXAMPLE_COMMAND);
  }

  lemma OutOfRangeWords()
    ensures forall i :: 0 <= i < 5 ==> IsWord(OUT_OF_RANGE_FIELDS[i])
  {
    var f := OUT_OF_RANGE_FIELDS;
    assert IsWord(f[0]) && IsWord(f[1]) && IsWord(f[2]) && IsWord(f[3]) && IsWord(f[4]);
  }

  lemma OutOfRangeIsLine()
    ensures Line(OUT_OF_RANGE_FIELDS, ' ', [' '] + EXAMPLE_COMMAND) == OUT_OF_RANGE_LINE
  {
    LineOfFive(OUT_OF_RANGE_FIELDS, ' ', EXAMPLE_COMMAND);
  }
}
