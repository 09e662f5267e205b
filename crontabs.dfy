/**
 * CronEdit::Crontab: a batch of named additions and removals held until commit,
 * which merges them into the current crontab and writes the result back as text
 * in which every entry line is preceded by a `# <id>` comment; and the parser
 * that turns crontab text into a hash from entry id to entry line.
 *
 * Running the `crontab` program is not part of this model: the crontab that
 * commit reads is a parameter of Commit, and the text it would install is one of
 * its results.
 */
module Crontabs {
  import opened RubyText
  import opened CronTypes
  import opened RubyHash
  import E = Entries

  // ------------------------------------------------------------------
  // Reading crontab text

  /** The local variables of parseCrontab between two lines: the counter for unnamed entries, the pending id, the hash so far. */
  datatype ParseState = ParseState(idx: nat, id: Option<string>, entries: Hash<string>)

  const START: ParseState := ParseState(0, None, Empty())

  /**
   * One line of parseCrontab's loop. The stripped line is skipped when empty; a line
   * starting with "no" (the "no crontab for ..." message) abandons the whole parse;
   * a comment names the next entry; any other line is an entry, stored under the
   * pending id or else under the next number.
   */
  function Step(st: ParseState, line: string): (r: Option<ParseState>)
    ensures r.None? <==> StartsWith(Strip(line), "no")
    ensures r.Some? ==> st.idx <= r.value.idx && st.entries.values.Keys <= r.value.entries.values.Keys
  {
    var l := Strip(line);
    if l == [] then Some(st)
    else if StartsWith(l, "no") then None
    else if l[0] == '#' then Some(st.(id := Some(Strip(l[1..]))))
    else
      match st.id
      case None =>
        var idx := st.idx + 1;
        Some(ParseState(idx, None, Put(st.entries, NatToS(idx), l)))
      case Some(key) =>
        Some(ParseState(st.idx, None, Put(st.entries, key, l)))
  }

  /** parseCrontab's loop over a list of lines, from a given state; None once it has returned `{}`. */
  function Run(st: ParseState, lines: seq<string>): (r: Option<ParseState>)
    ensures r.Some? ==> st.idx <= r.value.idx && st.entries.values.Keys <= r.value.entries.values.Keys
    decreases |lines|
  {
    if lines == [] then Some(st)
    else
      match Step(st, lines[0])
      case None => None
      case Some(next) => Run(next, lines[1..])
  }

  /**
   * The hash parseCrontab returns for a crontab's text. Whatever the text, its ids have
   * no newline and no surrounding blanks, and its values are stripped entry lines.
   */
  function CrontabOf(text: string): (r: Hash<string>)
    ensures WellFormed(r)
  {
    EachLineShape(text);
    RunKeepsGood(START, EachLine(text));
    match Run(START, EachLine(text))
    case None => Empty()
    case Some(st) => st.entries
  }

  /** Running over two lists of lines is running over the first, then over the second. */
  lemma {:induction false} RunAppend(st: ParseState, xs: seq<string>, ys: seq<string>)
    ensures Run(st, xs + ys) == match Run(st, xs) case None => None case Some(mid) => Run(mid, ys)
    decreases |xs|
  {
    if xs == [] {
      assert xs + ys == ys;
    } else {
      assert (xs + ys)[0] == xs[0] && (xs + ys)[1..] == xs[1..] + ys;
      match Step(st, xs[0])
      case None =>
      case Some(next) =>
        RunAppend(next, xs[1..], ys);
        assert Run(st, xs + ys) == Run(next, xs[1..] + ys);
        assert Run(st, xs) == Run(next, xs[1..]);
    }
  }

  // ------------------------------------------------------------------
  // What parseCrontab can return

  /** An id as it comes out of a comment: one line, nothing strip would remove. */
  predicate IsId(k: string) {
    '\n' !in k && Stripped(k)
  }

  /** An entry line as parseCrontab stores it: one non-empty stripped line that is neither a comment nor starts with "no". */
  predicate IsEntryLine(v: string) {
    v != [] && '\n' !in v && Stripped(v) && v[0] != '#' && !StartsWith(v, "no")
  }

  /** A hash from ids to entry lines, with every key listed once in its order. */
  predicate WellFormed(h: Hash<string>) {
    h.Valid() && forall k :: k in h.values ==> IsId(k) && IsEntryLine(h.values[k])
  }

  /** Digits are never stripped and never a newline. */
  lemma NumberIsId(n: nat)
    ensures IsId(NatToS(n))
  {
    var s := NatToS(n);
    NatToSDigits(n);
    assert forall i :: 0 <= i < |s| ==> IsDigit(s[i]);
  }

  lemma StripKeepsOut(s: string, c: char)
    requires c !in s
    ensures c !in Strip(s)
  {
    var r := Strip(s);
    StripLeftSuffix(s);
    var off := |s| - |StripLeft(s)|;
    assert forall i :: 0 <= i < |r| ==> r[i] == s[off + i];
  }

  /** A parse state whose hash is well formed and whose pending id is one too. */
  predicate GoodState(st: ParseState) {
    WellFormed(st.entries) && (st.id.Some? ==> IsId(st.id.value))
  }

  /** Storing an entry line under an id keeps the hash well formed. */
  lemma PutWellFormed(h: Hash<string>, k: string, v: string)
    requires WellFormed(h) && IsId(k) && IsEntryLine(v)
    ensures WellFormed(Put(h, k, v))
  {
    PutValid(h, k, v);
  }

  /** Stripping a line that each_line yields leaves no newline in it. */
  lemma StripOfLine(line: string)
    requires IsLine(line)
    ensures '\n' !in Strip(line)
  {
    assert forall i :: 0 <= i < |line| - 1 ==> line[i] == line[..|line| - 1][i];
    StripDropsNewline(line);
  }

  /** Storing an entry line, under the pending id or the next number, keeps a good state good. */
  lemma StoreKeepsGood(st: ParseState, l: string)
    requires GoodState(st) && IsEntryLine(l)
    ensures st.id.None? ==> GoodState(ParseState(st.idx + 1, None, Put(st.entries, NatToS(st.idx + 1), l)))
    ensures st.id.Some? ==> GoodState(ParseState(st.idx, None, Put(st.entries, st.id.value, l)))
  {
    if st.id.None? {
      NumberIsId(st.idx + 1);
      PutWellFormed(st.entries, NatToS(st.idx + 1), l);
    } else {
      PutWellFormed(st.entries, st.id.value, l);
    }
  }

  /** A comment line names the next entry with an id that is a stripped single line. */
  lemma CommentKeepsGood(st: ParseState, line: string)
    requires GoodState(st) && IsLine(line)
    requires var l := Strip(line); l != [] && !StartsWith(l, "no") && l[0] == '#'
    ensures Step(st, line).Some? && GoodState(Step(st, line).value)
  {
    StripOfLine(line);
    var l := Strip(line);
    StripKeepsOut(l[1..], '\n');
    assert IsId(Strip(l[1..]));
    assert Step(st, line) == Some(st.(id := Some(Strip(l[1..]))));
  }

  /** Any other non-empty line, once stripped, is an entry line. */
  lemma StrippedEntryLine(line: string)
    requires IsLine(line)
    requires var l := Strip(line); l != [] && !StartsWith(l, "no") && l[0] != '#'
    ensures IsEntryLine(Strip(line))
  {
    StripOfLine(line);
  }

  /** Such a line is stored under the pending id, or else under the next number. */
  lemma EntryStepIs(st: ParseState, line: string)
    requires var l := Strip(line); l != [] && !StartsWith(l, "no") && l[0] != '#'
    ensures st.id.None? ==> Step(st, line) == Some(ParseState(st.idx + 1, None, Put(st.entries, NatToS(st.idx + 1), Strip(line))))
    ensures st.id.Some? ==> Step(st, line) == Some(ParseState(st.idx, None, Put(st.entries, st.id.value, Strip(line))))
  {
  }

  /** Storing it keeps a good state good. */
  lemma EntryKeepsGood(st: ParseState, line: string)
    requires GoodState(st) && IsLine(line)
    requires var l := Strip(line); l != [] && !StartsWith(l, "no") && l[0] != '#'
    ensures Step(st, line).Some? && GoodState(Step(st, line).value)
  {
    StrippedEntryLine(line);
    StoreKeepsGood(st, Strip(line));
    EntryStepIs(st, line);
  }

  /** Each line that each_line yields keeps a good parse state good. */
  lemma StepKeepsGood(st: ParseState, line: string)
    requires GoodState(st)
    requires IsLine(line)
    ensures Step(st, line).Some? ==> GoodState(Step(st, line).value)
  {
    var l := Strip(line);
    if l == [] {
      assert Step(st, line) == Some(st);
    } else if StartsWith(l, "no") {
      assert Step(st, line) == None;
    } else if l[0] == '#' {
      CommentKeepsGood(st, line);
    } else {
      EntryKeepsGood(st, line);
    }
  }

  lemma {:induction false} RunKeepsGood(st: ParseState, lines: seq<string>)
    requires GoodState(st)
    requires LineShaped(lines)
    ensures Run(st, lines).Some? ==> GoodState(Run(st, lines).value)
    decreases |lines|
  {
    if lines != [] {
      StepKeepsGood(st, lines[0]);
      match Step(st, lines[0])
      case None =>
      case Some(next) =>
        assert forall i :: 0 <= i < |lines| - 1 ==> lines[1..][i] == lines[i + 1];
        RunKeepsGood(next, lines[1..]);
    }
  }

  /** The stripped line starts with "no", as the "no crontab for ..." message does. */
  predicate IsNoCrontab(line: string) {
    StartsWith(Strip(line), "no")
  }

  /** The loop gives up exactly when one of the lines is a "no ..." line; the lines before it change nothing then. */
  lemma {:induction false} RunStops(st: ParseState, lines: seq<string>)
    ensures Run(st, lines).None? <==> exists i :: 0 <= i < |lines| && IsNoCrontab(lines[i])
    decreases |lines|
  {
    if lines != [] {
      match Step(st, lines[0])
      case None =>
        assert IsNoCrontab(lines[0]);
      case Some(next) =>
        assert !IsNoCrontab(lines[0]);
        RunStops(next, lines[1..]);
        assert forall i :: 0 <= i < |lines| - 1 ==> lines[1..][i] == lines[i + 1];
        if exists i :: 0 <= i < |lines| && IsNoCrontab(lines[i]) {
          var i :| 0 <= i < |lines| && IsNoCrontab(lines[i]);
          assert i != 0;
          assert IsNoCrontab(lines[1..][i - 1]);
        }
    }
  }

  /** A crontab text with a "no ..." line anywhere lists as the empty hash. */
  lemma NoCrontabMessage(text: string)
    requires exists i :: 0 <= i < |EachLine(text)| && IsNoCrontab(EachLine(text)[i])
    ensures CrontabOf(text) == Empty()
  {
    RunStops(START, EachLine(text));
  }

  /** A comment line: stripped, it starts with `#`. */
  predicate IsComment(line: string) {
    Strip(line) != [] && Strip(line)[0] == '#'
  }

  /** Of two comments in a row, the second names the next entry: the first one is forgotten. */
  lemma CommentOverridden(st: ParseState, c1: string, c2: string, rest: seq<string>)
    requires IsComment(c1) && IsComment(c2)
    ensures Run(st, [c1, c2] + rest) == Run(st, [c2] + rest)
  {
    var l1 := Strip(c1);
    var l2 := Strip(c2);
    var id2 := Some(Strip(l2[1..]));
    assert !StartsWith(l1, "no") && !StartsWith(l2, "no");
    assert Step(st, c1) == Some(st.(id := Some(Strip(l1[1..]))));
    assert Step(st.(id := Some(Strip(l1[1..]))), c2) == Some(st.(id := id2));
    assert Step(st, c2) == Some(st.(id := id2));
    assert ([c1, c2] + rest)[1..] == [c2] + rest;
    assert ([c2] + rest)[1..] == rest;
  }

  // ------------------------------------------------------------------
  // Writing crontab text

  /** What commit writes for one entry: `puts "# #{id}"`, then `puts entry`. */
  function Record(id: string, line: string): string {
    Puts("# " + id) + Puts(line)
  }

  /** The records of the keys `ks`, in order. */
  function Records(ks: seq<string>, vals: map<string, string>): string
    requires forall k :: k in ks ==> k in vals
  {
    if ks == [] then "" else Record(ks[0], vals[ks[0]]) + Records(ks[1..], vals)
  }

  /**
   * The text commit pipes into `crontab -` for a merged hash: empty exactly when the
   * hash is, and otherwise ending in a newline, so its last entry line is terminated.
   */
  function Serialize(h: Hash<string>): (r: string)
    requires h.Valid()
    ensures h.keys == [] <==> r == []
    ensures r != [] ==> r[|r| - 1] == '\n'
  {
    RecordsEnd(h.keys, h.values);
    Records(h.keys, h.values)
  }

  /** Records are empty only for no keys, and otherwise end with the newline puts writes. */
  lemma {:induction false} RecordsEnd(ks: seq<string>, vals: map<string, string>)
    requires forall k :: k in ks ==> k in vals
    ensures ks == [] <==> Records(ks, vals) == []
    ensures ks != [] ==> Records(ks, vals)[|Records(ks, vals)| - 1] == '\n'
    decreases |ks|
  {
    if ks != [] {
      var head, rest := Record(ks[0], vals[ks[0]]), Records(ks[1..], vals);
      RecordsEnd(ks[1..], vals);
      assert head != [] && head[|head| - 1] == '\n';
      assert Records(ks, vals) == head + rest;
    }
  }

  lemma {:induction false} RecordsSnoc(ks: seq<string>, k: string, vals: map<string, string>)
    requires forall x :: x in ks ==> x in vals
    requires k in vals
    ensures Records(ks + [k], vals) == Records(ks, vals) + Record(k, vals[k])
    decreases |ks|
  {
    if ks == [] {
      assert [k][1..] == [];
      assert ks + [k] == [k];
    } else {
      var first, mid, last := Record(ks[0], vals[ks[0]]), Records(ks[1..], vals), Record(k, vals[k]);
      assert (ks + [k])[0] == ks[0] && (ks + [k])[1..] == ks[1..] + [k];
      RecordsSnoc(ks[1..], k, vals);
      assert Records(ks + [k], vals) == first + (mid + last);
      AppendAssoc(first, mid, last);
    }
  }

  /** The comment line `# id` strips to `#` followed by the id's own text, which strips back to the id. */
  lemma CommentText(k: string)
    requires IsId(k)
    ensures Strip("# " + k + "\n") != [] && Strip("# " + k + "\n")[0] == '#'
    ensures Strip(Strip("# " + k + "\n")[1..]) == k
  {
    StripAppend("# " + k, '\n');
    if k == [] {
      BareComment("# " + k);
    } else {
      var c := "# " + k;
      assert c[2..] == k;
      NamedComment(c, k);
    }
  }

  /** `# ` alone strips to `#`. */
  lemma BareComment(c: string)
    requires |c| == 2 && c[0] == '#' && c[1] == ' '
    ensures Strip(c) == c[..1] && Strip(c)[0] == '#' && Strip(Strip(c)[1..]) == []
  {
    assert StripLeft(c) == c;
    assert StripRight(c) == StripRight(c[..1]);
    assert StripRight(c[..1]) == c[..1];
    assert c[..1][1..] == [];
  }

  /** `# k` is already stripped, and what follows the `#` strips to `k`. */
  lemma NamedComment(c: string, k: string)
    requires k != [] && Stripped(k)
    requires |c| == |k| + 2 && c[0] == '#' && c[1] == ' ' && c[2..] == k
    ensures Strip(c) == c && Strip(c[1..]) == k
  {
    assert c[|c| - 1] == k[|k| - 1];
    StripOfStripped(c);
    assert c[1..][0] == ' ' && c[1..][1..] == k;
    StripBlank(c[1..], k);
  }

  lemma StripBlank(t: string, k: string)
    requires Stripped(k) && |t| == |k| + 1 && t[0] == ' ' && t[1..] == k
    ensures Strip(t) == k
  {
    assert StripLeft(t) == StripLeft(k);
    assert k == [] || !IsStripChar(k[0]);
    assert StripLeft(k) == k;
    StripOfStripped(k);
  }

  /** Read back, the comment line `# id` makes `id` the pending id. */
  lemma CommentStep(st: ParseState, k: string)
    requires IsId(k)
    ensures Step(st, "# " + k + "\n") == Some(st.(id := Some(k)))
  {
    CommentText(k);
    var l := Strip("# " + k + "\n");
    NotStartsWith(l, "no");
  }

  lemma NotStartsWith(s: string, p: string)
    requires p != [] && (s == [] || s[0] != p[0])
    ensures !StartsWith(s, p)
  {
  }

  /** An entry line written by puts comes back as the entry of the pending id. */
  lemma EntryStep(st: ParseState, k: string, v: string)
    requires IsEntryLine(v)
    ensures Step(st.(id := Some(k)), v + "\n") == Some(ParseState(st.idx, None, Put(st.entries, k, v)))
  {
    StripAppend(v, '\n');
    StripOfStripped(v);
  }

  lemma AppendAssoc<T>(a: seq<T>, b: seq<T>, c: seq<T>)
    ensures (a + b) + c == a + (b + c)
  {
  }

  lemma ConsTwo<T>(x: T, y: T, r: seq<T>)
    ensures [x] + ([y] + r) == [x, y] + r
  {
  }

  lemma CommentNoNewline(k: string)
    requires IsId(k)
    ensures '\n' !in "# " + k
  {
    var c := "# " + k;
    assert forall i :: 0 <= i < |c| ==> c[i] == if i < 2 then "# "[i] else k[i - 2];
  }

  /** The two lines of a record are read as a comment that names the entry, then the entry. */
  lemma RecordLines(k: string, v: string, rest: string)
    requires IsId(k) && IsEntryLine(v)
    ensures EachLine(Record(k, v) + rest) == ["# " + k + "\n", v + "\n"] + EachLine(rest)
  {
    var c := "# " + k;
    var p := Puts(v) + rest;
    assert EachLine(p) == [v + "\n"] + EachLine(rest) by {
      EachLineOfPuts(v, rest);
    }
    assert EachLine(Puts(c) + p) == [c + "\n"] + EachLine(p) by {
      CommentNoNewline(k);
      EachLineOfPuts(c, p);
    }
    AppendAssoc(Puts(c), Puts(v), rest);
    ConsTwo(c + "\n", v + "\n", EachLine(rest));
  }

  /** Reading back the records of well-formed pairs assigns each pair in order. */
  lemma {:induction false} ReadRecords(st: ParseState, ks: seq<string>, vals: map<string, string>)
    requires st.id == None
    requires forall k :: k in ks ==> k in vals && IsId(k) && IsEntryLine(vals[k])
    ensures Run(st, EachLine(Records(ks, vals))) == Some(ParseState(st.idx, None, PutAll(st.entries, ks, vals)))
    decreases |ks|
  {
    if ks != [] {
      var k, v := ks[0], vals[ks[0]];
      var rest := Records(ks[1..], vals);
      RecordLines(k, v, rest);
      var lines := ["# " + k + "\n", v + "\n"] + EachLine(rest);
      CommentStep(st, k);
      var named := st.(id := Some(k));
      EntryStep(st, k, v);
      var next := ParseState(st.idx, None, Put(st.entries, k, v));
      assert lines[0] == "# " + k + "\n" && lines[1..][0] == v + "\n" && lines[1..][1..] == EachLine(rest);
      assert Run(st, lines) == Run(named, lines[1..]);
      assert Run(named, lines[1..]) == Run(next, EachLine(rest));
      ReadRecords(next, ks[1..], vals);
    }
  }

  /** Writing a well-formed hash the way commit does and parsing the text gives back the same hash, in the same order. */
  lemma SerializeRoundTrip(h: Hash<string>)
    requires WellFormed(h)
    ensures CrontabOf(Serialize(h)) == h
  {
    ReadRecords(START, h.keys, h.values);
    PutAllRebuilds(h);
  }

  /** Listing, writing the listing back, and listing again changes nothing. */
  lemma RelistIsStable(text: string)
    ensures CrontabOf(Serialize(CrontabOf(text))) == CrontabOf(text)
  {
    SerializeRoundTrip(CrontabOf(text));
  }

  // ------------------------------------------------------------------
  // Merging

  /**
   * A value of the hash commit merges: an entry line as parseCrontab listed it from
   * the installed crontab, or a CronEntry added in this batch.
   */
  datatype Stored = Listed(line: string) | Added(entry: E.CronEntry) {
    /** What `io.puts entry` writes for the value: the listed line, or the entry's `to_s`. */
    function Text(): string {
      match this
      case Listed(line) => line
      case Added(entry) => entry.ToS()
    }
  }

  /** The listed crontab as values of the merge: every id keeps its place and its line. */
  function Listing(current: Hash<string>): (r: Hash<Stored>)
    ensures r.keys == current.keys && r.values.Keys == current.values.Keys
    ensures forall k :: k in r.values ==> r.values[k] == Listed(current.values[k])
    ensures current.Valid() ==> r.Valid()
  {
    Hash(current.keys, map k | k in current.values :: Listed(current.values[k]))
  }

  /** The pending additions as values of the merge: every id keeps its place and its entry. */
  function Additions(adds: Hash<E.CronEntry>): (r: Hash<Stored>)
    ensures r.keys == adds.keys && r.values.Keys == adds.values.Keys
    ensures forall k :: k in r.values ==> r.values[k] == Added(adds.values[k])
    ensures adds.Valid() ==> r.Valid()
  {
    Hash(adds.keys, map k | k in adds.values :: Added(adds.values[k]))
  }

  /** The hash of what commit writes: the same ids in the same order, each with the text `puts` writes for its value. */
  function Texts(h: Hash<Stored>): (r: Hash<string>)
    ensures r.keys == h.keys && r.values.Keys == h.values.Keys
    ensures forall k :: k in r.values ==> r.values[k] == h.values[k].Text()
    ensures h.Valid() ==> r.Valid()
  {
    Hash(h.keys, map k | k in h.values :: h.values[k].Text())
  }

  /**
   * commit's merge: the current entries without the removed ids, then every addition
   * assigned in turn. Added ids hold their CronEntry; the others keep their listed line.
   */
  function Merged(current: Hash<string>, removals: set<string>, adds: Hash<E.CronEntry>): (r: Hash<Stored>)
    requires adds.Valid()
    ensures current.Valid() ==> r.Valid()
  {
    MergeValid(Listing(DeleteAll(current, removals)), Additions(adds));
    Merge(Listing(DeleteAll(current, removals)), Additions(adds))
  }

  /**
   * An id is in the merged crontab when it is added, or is current and not removed; an
   * added entry wins over a current one; current entries keep their order, and new ids
   * follow in the order they were added.
   */
  lemma MergedContents(current: Hash<string>, removals: set<string>, adds: Hash<E.CronEntry>)
    requires current.Valid() && adds.Valid()
    ensures Merged(current, removals, adds).Valid()
    ensures forall k :: k in Merged(current, removals, adds).values <==>
      (k in current.values && k !in removals) || k in adds.values
    ensures forall k :: k in adds.values ==> Merged(current, removals, adds).values[k] == Added(adds.values[k])
    ensures forall k :: k in current.values && k !in removals && k !in adds.values ==>
      Merged(current, removals, adds).values[k] == Listed(current.values[k])
    ensures Merged(current, removals, adds).keys ==
      Without(current.keys, removals) + Without(adds.keys, set k | k in current.values && k !in removals)
  {
    var kept := Listing(DeleteAll(current, removals));
    MergeValid(kept, Additions(adds));
    MergeContents(kept, Additions(adds));
    assert kept.values.Keys == set k | k in current.values && k !in removals;
  }

  /** With nothing pending, commit writes back the current crontab unchanged. */
  lemma NothingPending(current: Hash<string>)
    requires current.Valid()
    ensures Merged(current, {}, Empty()) == Listing(current)
    ensures Texts(Merged(current, {}, Empty())) == current
  {
    DeleteNothing(current);
    assert Additions(Empty<E.CronEntry>()).keys == [];
    assert Texts(Listing(current)).values == current.values;
  }

  /** A removal followed by an addition of the same id still installs the addition. */
  lemma AddAfterRemove(current: Hash<string>, removals: set<string>, adds: Hash<E.CronEntry>, id: string, e: E.CronEntry)
    requires current.Valid() && adds.Valid()
    ensures id in Merged(current, removals + {id}, Put(DeleteAll(adds, {id}), id, e)).values
    ensures Merged(current, removals + {id}, Put(DeleteAll(adds, {id}), id, e)).values[id] == Added(e)
  {
    MergedContents(current, removals + {id}, Put(DeleteAll(adds, {id}), id, e));
  }

  /** An addition followed by a removal of the same id takes the id out of the crontab. */
  lemma RemoveAfterAdd(current: Hash<string>, removals: set<string>, adds: Hash<E.CronEntry>, id: string, e: E.CronEntry)
    requires current.Valid() && adds.Valid()
    ensures Put(adds, id, e).Valid()
    ensures id !in Merged(current, removals + {id}, DeleteAll(Put(adds, id, e), {id})).values
  {
    PutValid(adds, id, e);
    MergedContents(current, removals + {id}, DeleteAll(Put(adds, id, e), {id}));
  }

  /** Pending additions whose ids and texts read back as themselves. */
  predicate GoodAdds(adds: Hash<E.CronEntry>) {
    adds.Valid() && forall k :: k in adds.values ==> IsId(k) && IsEntryLine(adds.values[k].raw)
  }

  /**
   * When the current crontab is one parseCrontab produced and every addition is a
   * one-line stripped entry, listing the crontab after commit gives the merged hash.
   */
  lemma CommitThenList(current: Hash<string>, removals: set<string>, adds: Hash<E.CronEntry>)
    requires WellFormed(current) && GoodAdds(adds)
    ensures Merged(current, removals, adds).Valid()
    ensures CrontabOf(Serialize(Texts(Merged(current, removals, adds)))) == Texts(Merged(current, removals, adds))
  {
    MergedContents(current, removals, adds);
    SerializeRoundTrip(Texts(Merged(current, removals, adds)));
  }

  /** The loop of commit that puts each entry's id comment and the entry, in the hash's order. */
  method WriteRecords(h: Hash<Stored>) returns (text: string)
    requires h.Valid()
    ensures text == Serialize(Texts(h))
  {
    ghost var texts := Texts(h);
    text := "";
    var i := 0;
    while i < |h.keys|
      invariant 0 <= i <= |h.keys|
      invariant text == Records(h.keys[..i], texts.values)
    {
      var id := h.keys[i];
      RecordsSnoc(h.keys[..i], id, texts.values);
      PrefixSnoc(h.keys, i);
      text := text + Record(id, h.values[id].Text());
      i := i + 1;
    }
    assert h.keys[..i] == h.keys;
  }

  // ------------------------------------------------------------------
  // The batch of modifications

  class Crontab {
    /** Entries to install on commit, by id, in the order they were first added. */
    var adds: Hash<E.CronEntry>
    /** Ids to take out of the current crontab on commit. */
    var removals: set<string>

    predicate Valid()
      reads this
    {
      adds.Valid()
    }

    /** A new batch has nothing pending. */
    constructor ()
      ensures Valid() && adds == Empty() && removals == {}
    {
      adds := Empty();
      removals := {};
    }

    /**
     * Builds the entry and records it under `id`; a definition CronEntry rejects
     * raises instead, and then nothing is recorded.
     */
    method Add(id: string, def: E.Definition) returns (r: Result<E.CronEntry>)
      requires Valid()
      modifies this
      ensures Valid() && r == E.NewEntry(def) && removals == old(removals)
      ensures r.Ok? ==> adds == Put(old(adds), id, r.value)
      ensures r.Err? ==> adds == old(adds)
    {
      r := E.NewEntry(def);
      if r.Ok? {
        PutValid(adds, id, r.value);
        adds := Put(adds, id, r.value);
      }
    }

    /** Drops a pending addition of `id` and marks `id` for removal. */
    method Remove(id: string)
      requires Valid()
      modifies this
      ensures Valid()
      ensures adds == DeleteAll(old(adds), {id}) && removals == old(removals) + {id}
    {
      adds := DeleteAll(adds, {id});
      removals := removals + {id};
    }

    /** Discards everything pending. */
    method Rollback()
      modifies this
      ensures Valid() && adds == Empty() && removals == {}
    {
      adds := Empty();
      removals := {};
    }

    /**
     * Merges the pending modifications into `current`, the crontab as listed; returns
     * the merged hash and the text that installs it; then discards the modifications.
     */
    method Commit(current: Hash<string>) returns (merged: Hash<Stored>, text: string)
      requires Valid() && current.Valid()
      modifies this
      ensures merged == Merged(current, old(removals), old(adds)) && merged.Valid()
      ensures text == Serialize(Texts(merged))
      ensures Valid() && adds == Empty() && removals == {}
    {
      var kept := Listing(DeleteAll(current, removals));
      MergeValid(kept, Additions(adds));
      merged := Merge(kept, Additions(adds));
      text := WriteRecords(merged);
      Rollback();
    }

    /** parseCrontab: reads the crontab's text line by line into a hash from id to entry line. */
    method ParseCrontab(text: string) returns (entries: Hash<string>)
      ensures entries == CrontabOf(text)
    {
      var lines := EachLine(text);
      entries := Empty();
      var idx: nat := 0;
      var id: Option<string> := None;
      var rest := lines;
      while rest != []
        invariant Run(START, lines) == Run(ParseState(idx, id, entries), rest)
      {
        ghost var st := ParseState(idx, id, entries);
        var stop, idx', id', entries' := ParseLine(idx, id, entries, rest[0]);
        if stop {
          assert Run(st, rest) == None;
          return Empty();
        }
        assert Run(st, rest) == Run(ParseState(idx', id', entries'), rest[1..]);
        idx, id, entries := idx', id', entries';
        rest := rest[1..];
      }
    }

    /**
     * The body of parseCrontab's loop for one line: skip a blank line, give up on the
     * "no crontab" message, take a comment as the next id, else store the entry line
     * under the pending id or the next number.
     */
    method ParseLine(idx: nat, id: Option<string>, entries: Hash<string>, line: string)
      returns (stop: bool, idx': nat, id': Option<string>, entries': Hash<string>)
      ensures stop <==> Step(ParseState(idx, id, entries), line).None?
      ensures !stop ==> Step(ParseState(idx, id, entries), line) == Some(ParseState(idx', id', entries'))
    {
      var l := Strip(line);
      stop, idx', id', entries' := false, idx, id, entries;
      if l == [] {
        return;
      }
      if StartsWith(l, "no") {
        stop := true;
        return;
      }
      if l[0] == '#' {
        id' := Some(Strip(l[1..]));
      } else if id == None {
        idx' := idx + 1;
        entries' := Put(entries, NatToS(idx'), l);
      } else {
        entries' := Put(entries, id.value, l);
        id' := None;
      }
    }
  }

  // ------------------------------------------------------------------
  // Sessions from the library's tests

  /**
   * An addition and a removal that are rolled back leave nothing to do: the following
   * commit installs the current crontab as it was.
   */
  method RollbackSession(current: Hash<string>, def: E.Definition) returns (merged: Hash<Stored>)
    requires current.Valid()
    ensures merged == Listing(current) && Texts(merged) == current
  {
    var cm := new Crontab();
    var _ := cm.Add("agent1", def);
    cm.Remove("agent2");
    cm.Rollback();
    var text;
    merged, text := cm.Commit(current);
    NothingPending(current);
  }

  /** Committing into an empty crontab with nothing to remove installs exactly the additions, in their order. */
  lemma CommitIntoEmpty(adds: Hash<E.CronEntry>)
    requires adds.Valid()
    ensures Merged(Empty(), {}, adds) == Additions(adds)
  {
    var e: Hash<string> := Empty();
    assert DeleteAll(e, {}) == e;
    assert Listing(e) == Empty();
    PutAllRebuilds(Additions(adds));
  }

  /** The first commit of the session: additions under two ids into an empty crontab. */
  lemma FirstCommit(a: string, b: string, e1: E.CronEntry, e2: E.CronEntry)
    requires a != b
    ensures Merged(Empty(), {}, Hash([a, b], map[a := e1, b := e2])) == Hash([a, b], map[a := Added(e1), b := Added(e2)])
  {
    var adds := Hash([a, b], map[a := e1, b := e2]);
    assert adds.Valid();
    CommitIntoEmpty(adds);
    assert Additions(adds).values == map[a := Added(e1), b := Added(e2)];
  }

  /** The second commit of the session: the first id replaced, the second removed. */
  lemma SecondCommit(a: string, b: string, raw1: string, raw2: string, e3: E.CronEntry)
    requires a != b
    ensures Merged(Hash([a, b], map[a := raw1, b := raw2]), {b}, Hash([a], map[a := e3])) == Hash([a], map[a := Added(e3)])
  {
    DeleteSecond(a, b, raw1, raw2);
    assert Listing(Hash([a], map[a := raw1])).values == map[a := Listed(raw1)];
    assert Additions(Hash([a], map[a := e3])).values == map[a := Added(e3)];
    ReplaceOnly(a, Listed(raw1), Added(e3));
  }

  lemma DeleteSecond(a: string, b: string, raw1: string, raw2: string)
    requires a != b
    ensures DeleteAll(Hash([a, b], map[a := raw1, b := raw2]), {b}) == Hash([a], map[a := raw1])
  {
    var current := Hash([a, b], map[a := raw1, b := raw2]);
    assert [a, b][1..] == [b] && [b][1..] == [];
    assert Without([b], {b}) == [];
    assert Without([a, b], {b}) == [a];
    assert (map k | k in current.values && k !in {b} :: current.values[k]) == map[a := raw1];
  }

  /** Merging a one-pair hash into another with the same key replaces the value. */
  lemma ReplaceOnly<V>(a: string, v: V, w: V)
    ensures Merge(Hash([a], map[a := v]), Hash([a], map[a := w])) == Hash([a], map[a := w])
  {
    var raws := Hash([a], map[a := w]);
    assert raws.Valid();
    assert Put(Hash([a], map[a := v]), a, raws.values[a]) == raws;
    assert PutAll(raws, [a][1..], raws.values) == raws by {
      assert [a][1..] == [];
    }
  }

  lemma TwoWellFormed(a: string, b: string, v1: string, v2: string)
    requires a != b && IsId(a) && IsId(b) && IsEntryLine(v1) && IsEntryLine(v2)
    ensures WellFormed(Hash([a, b], map[a := v1, b := v2]))
  {
  }

  lemma PutOne<V>(a: string, x: V)
    ensures Put(Empty(), a, x) == Hash([a], map[a := x])
  {
  }

  lemma PutTwo<V>(a: string, b: string, x: V, y: V)
    requires a != b
    ensures Put(Put(Empty(), a, x), b, y) == Hash([a, b], map[a := x, b := y])
  {
    PutOne(a, x);
  }

  lemma OneWellFormed(a: string, v: string)
    requires IsId(a) && IsEntryLine(v)
    ensures WellFormed(Hash([a], map[a := v]))
  {
  }

  /** The first batch of the session: two additions committed into an empty crontab, then listed. */
  method FirstBatch(a: string, b: string, d1: E.Definition, d2: E.Definition) returns (listed: Hash<string>)
    requires a != b && IsId(a) && IsId(b)
    requires E.NewEntry(d1).Ok? && IsEntryLine(E.NewEntry(d1).value.raw)
    requires E.NewEntry(d2).Ok? && IsEntryLine(E.NewEntry(d2).value.raw)
    ensures listed == Hash([a, b], map[a := E.NewEntry(d1).value.raw, b := E.NewEntry(d2).value.raw])
  {
    var cm := new Crontab();
    var e1 := cm.Add(a, d1);
    var e2 := cm.Add(b, d2);
    var adds := cm.adds;
    assert adds == Hash([a, b], map[a := e1.value, b := e2.value]) by {
      PutTwo(a, b, e1.value, e2.value);
    }
    FirstListing(a, b, e1.value, e2.value);
    var merged, text := cm.Commit(Empty());
    listed := cm.ParseCrontab(text);
  }

  /** What the first commit writes lists back as the texts of the hash it merged. */
  lemma FirstListing(a: string, b: string, e1: E.CronEntry, e2: E.CronEntry)
    requires a != b && IsId(a) && IsId(b) && IsEntryLine(e1.raw) && IsEntryLine(e2.raw)
    ensures Merged(Empty(), {}, Hash([a, b], map[a := e1, b := e2])) == Hash([a, b], map[a := Added(e1), b := Added(e2)])
    ensures Texts(Hash([a, b], map[a := Added(e1), b := Added(e2)])) == Hash([a, b], map[a := e1.raw, b := e2.raw])
    ensures CrontabOf(Serialize(Hash([a, b], map[a := e1.raw, b := e2.raw]))) == Hash([a, b], map[a := e1.raw, b := e2.raw])
  {
    FirstCommit(a, b, e1, e2);
    TextsTwo(a, b, e1, e2);
    TwoWellFormed(a, b, e1.raw, e2.raw);
    SerializeRoundTrip(Hash([a, b], map[a := e1.raw, b := e2.raw]));
  }

  lemma TextsTwo(a: string, b: string, e1: E.CronEntry, e2: E.CronEntry)
    requires a != b
    ensures Texts(Hash([a, b], map[a := Added(e1), b := Added(e2)])) == Hash([a, b], map[a := e1.raw, b := e2.raw])
  {
    assert Texts(Hash([a, b], map[a := Added(e1), b := Added(e2)])).values == map[a := e1.raw, b := e2.raw];
  }

  /** What the second commit writes lists back as the texts of the hash it merged. */
  lemma SecondListing(a: string, b: string, v1: string, v2: string, e3: E.CronEntry)
    requires a != b && IsId(a) && IsId(b) && IsEntryLine(v1) && IsEntryLine(v2) && IsEntryLine(e3.raw)
    ensures Merged(Hash([a, b], map[a := v1, b := v2]), {b}, Hash([a], map[a := e3])) == Hash([a], map[a := Added(e3)])
    ensures Texts(Hash([a], map[a := Added(e3)])) == Hash([a], map[a := e3.raw])
    ensures CrontabOf(Serialize(Hash([a], map[a := e3.raw]))) == Hash([a], map[a := e3.raw])
  {
    SecondCommit(a, b, v1, v2, e3);
    TextsOne(a, e3);
    OneWellFormed(a, e3.raw);
    SerializeRoundTrip(Hash([a], map[a := e3.raw]));
  }

  lemma TextsOne(a: string, e: E.CronEntry)
    ensures Texts(Hash([a], map[a := Added(e)])) == Hash([a], map[a := e.raw])
  {
    assert Texts(Hash([a], map[a := Added(e)])).values == map[a := e.raw];
  }

  /** The second batch of the session: a replacement of the first id and a removal of the second, committed and listed. */
  method SecondBatch(current: Hash<string>, a: string, b: string, v1: string, v2: string, d3: E.Definition)
    returns (listed: Hash<string>)
    requires a != b && IsId(a) && IsId(b) && IsEntryLine(v1) && IsEntryLine(v2)
    requires current == Hash([a, b], map[a := v1, b := v2])
    requires E.NewEntry(d3).Ok? && IsEntryLine(E.NewEntry(d3).value.raw)
    ensures listed == Hash([a], map[a := E.NewEntry(d3).value.raw])
  {
    assert current.Valid() by {
      TwoWellFormed(a, b, v1, v2);
    }
    var cm, e3 := StageSecond(a, b, d3);
    SecondListing(a, b, v1, v2, e3);
    var merged, text := cm.Commit(current);
    listed := cm.ParseCrontab(text);
  }

  /** A fresh batch with one addition. */
  method StageOne(a: string, d: E.Definition) returns (cm: Crontab, e: E.CronEntry)
    requires E.NewEntry(d).Ok?
    ensures fresh(cm) && cm.Valid() && E.NewEntry(d) == Ok(e)
    ensures cm.adds == Hash([a], map[a := e]) && cm.removals == {}
  {
    cm := new Crontab();
    var r := cm.Add(a, d);
    e := r.value;
    PutOne(a, e);
  }

  /** The second batch's modifications: the first id added again, the second removed. */
  method StageSecond(a: string, b: string, d3: E.Definition) returns (cm: Crontab, e3: E.CronEntry)
    requires a != b && E.NewEntry(d3).Ok?
    ensures fresh(cm) && cm.Valid() && E.NewEntry(d3) == Ok(e3)
    ensures cm.adds == Hash([a], map[a := e3]) && cm.removals == {b}
  {
    cm, e3 := StageOne(a, d3);
    ghost var staged := cm.adds;
    DeleteAbsent(staged, b);
    cm.Remove(b);
  }

  /**
   * The library's commit session, with its ids `a` and `b` ("agent1" and "agent2" there):
   * two entries committed into an empty crontab are listed back under their ids; a
   * second batch that replaces the first and removes the second leaves only the
   * replacement.
   */
  method CommitSession(a: string, b: string, d1: E.Definition, d2: E.Definition, d3: E.Definition)
    returns (first: Hash<string>, second: Hash<string>)
    requires a != b && IsId(a) && IsId(b)
    requires E.NewEntry(d1).Ok? && IsEntryLine(E.NewEntry(d1).value.raw)
    requires E.NewEntry(d2).Ok? && IsEntryLine(E.NewEntry(d2).value.raw)
    requires E.NewEntry(d3).Ok? && IsEntryLine(E.NewEntry(d3).value.raw)
    ensures first == Hash([a, b], map[a := E.NewEntry(d1).value.raw, b := E.NewEntry(d2).value.raw])
    ensures second == Hash([a], map[a := E.NewEntry(d3).value.raw])
  {
    first := FirstBatch(a, b, d1, d2);
    second := SecondBatch(first, a, b, E.NewEntry(d1).value.raw, E.NewEntry(d2).value.raw, d3);
  }

  // ------------------------------------------------------------------
  // Parsing the library's sample crontab

  /** Text made only of characters strip removes. */
  predicate Blank(s: string) {
    forall i :: 0 <= i < |s| ==> IsStripChar(s[i])
  }

  /** Leading blanks go, and a stripped text after them is what remains. */
  lemma {:induction false} StripPadded(pad: string, x: string)
    requires Blank(pad) && Stripped(x) && x != []
    ensures Strip(pad + x) == x
    decreases |pad|
  {
    if pad == [] {
      assert pad + x == x;
      StripOfStripped(x);
    } else {
      assert (pad + x)[1..] == pad[1..] + x;
      StripPadded(pad[1..], x);
      assert StripLeft(pad + x) == StripLeft(pad[1..] + x);
    }
  }

  lemma {:induction false} StripAllBlank(s: string)
    requires Blank(s)
    ensures Strip(s) == []
    decreases |s|
  {
    if s != [] {
      StripAllBlank(s[1..]);
      assert StripLeft(s) == StripLeft(s[1..]);
    }
  }

  /** A blank line leaves the state as it is. */
  lemma RunBlank(st: ParseState, lines: seq<string>)
    requires lines != [] && Blank(lines[0])
    ensures Run(st, lines) == Run(st, lines[1..])
  {
    StripAllBlank(lines[0]);
  }

  /** An indented comment line `#name` makes `name` the pending id. */
  lemma RunComment(st: ParseState, lines: seq<string>, pad: string, c: string, name: string)
    requires Blank(pad) && IsId(name) && name != [] && |c| == |name| + 1 && c[0] == '#' && c[1..] == name
    requires lines != [] && lines[0] == pad + c + "\n"
    ensures Run(st, lines) == Run(st.(id := Some(name)), lines[1..])
  {
    assert c[|c| - 1] == name[|name| - 1];
    StripAppend(pad + c, '\n');
    StripPadded(pad, c);
    StripOfStripped(name);
    NotStartsWith(c, "no");
    assert Step(st, lines[0]) == Some(st.(id := Some(name)));
  }

  /** An indented entry line with no pending id is stored under the next number. */
  lemma RunNumbered(st: ParseState, lines: seq<string>, pad: string, x: string)
    requires Blank(pad) && IsEntryLine(x) && st.id == None
    requires lines != [] && lines[0] == pad + x + "\n"
    ensures Run(st, lines) == Run(ParseState(st.idx + 1, None, Put(st.entries, NatToS(st.idx + 1), x)), lines[1..])
  {
    StripAppend(pad + x, '\n');
    StripPadded(pad, x);
    assert Step(st, lines[0]) == Some(ParseState(st.idx + 1, None, Put(st.entries, NatToS(st.idx + 1), x)));
  }

  /** An indented entry line is stored under the pending id. */
  lemma RunNamed(st: ParseState, lines: seq<string>, pad: string, x: string, k: string)
    requires Blank(pad) && IsEntryLine(x) && st.id == Some(k)
    requires lines != [] && lines[0] == pad + x + "\n"
    ensures Run(st, lines) == Run(ParseState(st.idx, None, Put(st.entries, k, x)), lines[1..])
  {
    StripAppend(pad + x, '\n');
    StripPadded(pad, x);
    assert Step(st, lines[0]) == Some(ParseState(st.idx, None, Put(st.entries, k, x)));
  }

  const PAD := "        "
  const INDENT := "    "
  const ENTRY_123 := "5,35 0-23/2 * * * echo 123"
  const ENTRY_AGENT1 := "3 * * * * echo agent1"
  const ENTRY_AGENT2 := "3 * * * * echo agent2"
  const ENTRY_AGENT3 := "3 * * * * echo agent3"
  const AGENT1 := "agent1"
  const AGENT2 := "agent2"
  const IGNORED := "ignored comment"

  /** The sample crontab of the library's tests, line by line as each_line yields it. */
  const ZIP_LINES: seq<string> := [
    "\n",
    PAD + ENTRY_123 + "\n",
    PAD + ("#" + AGENT1) + "\n",
    PAD + ENTRY_AGENT1 + "\n",
    "\n",
    "\n",
    PAD + ("#" + AGENT2) + "\n",
    PAD + ENTRY_AGENT2 + "\n",
    PAD + ("#" + IGNORED) + "\n",
    PAD + ("#" + AGENT1) + "\n",
    PAD + ENTRY_AGENT3 + "\n",
    INDENT
  ]

  const ZIP_TEXT := Concat(ZIP_LINES)

  lemma SampleEntries()
    ensures IsEntryLine(ENTRY_123) && IsEntryLine(ENTRY_AGENT1) && IsEntryLine(ENTRY_AGENT2) && IsEntryLine(ENTRY_AGENT3)
  {
    NotStartsWith(ENTRY_123, "no");
    NotStartsWith(ENTRY_AGENT1, "no");
    NotStartsWith(ENTRY_AGENT2, "no");
    NotStartsWith(ENTRY_AGENT3, "no");
  }

  lemma SampleNames()
    ensures IsId(AGENT1) && IsId(AGENT2) && IsId(IGNORED) && AGENT1 != [] && AGENT2 != [] && IGNORED != []
    ensures AGENT1 != AGENT2 && AGENT1 != "1" && AGENT2 != "1"
  {
  }

  lemma SamplePads()
    ensures Blank(PAD) && Blank(INDENT) && Blank("\n")
  {
  }

  /** A comment tag `#name` in the shape RunComment takes. */
  lemma Tag(name: string)
    ensures |"#" + name| == |name| + 1 && ("#" + name)[0] == '#' && ("#" + name)[1..] == name
  {
  }

  lemma PaddedLine(pad: string, x: string)
    requires '\n' !in pad && '\n' !in x
    ensures IsLine(pad + x + "\n") && (pad + x + "\n")[|pad + x + "\n"| - 1] == '\n'
  {
    assert (pad + x + "\n")[..|pad + x|] == pad + x;
  }

  /** each_line splits the sample text into the twelve lines above. */
  lemma ZipLines()
    ensures EachLine(ZIP_TEXT) == ZIP_LINES
  {
    SampleEntries();
    SampleNames();
    SamplePads();
    var L := ZIP_LINES;
    assert '\n' !in PAD;
    assert '\n' !in "#" + AGENT1 && '\n' !in "#" + AGENT2 && '\n' !in "#" + IGNORED;
    PaddedLine([], []);
    PaddedLine(PAD, ENTRY_123);
    PaddedLine(PAD, "#" + AGENT1);
    PaddedLine(PAD, ENTRY_AGENT1);
    PaddedLine(PAD, "#" + AGENT2);
    PaddedLine(PAD, ENTRY_AGENT2);
    PaddedLine(PAD, "#" + IGNORED);
    PaddedLine(PAD, ENTRY_AGENT3);
    assert [] + [] + "\n" == "\n";
    assert IsLine(INDENT);
    EachLineOfConcat(L);
  }

  /** The hash after each entry line of the sample. */
  const AFTER_123 := Put(Empty(), "1", ENTRY_123)
  const AFTER_AGENT1 := Put(AFTER_123, AGENT1, ENTRY_AGENT1)
  const AFTER_AGENT2 := Put(AFTER_AGENT1, AGENT2, ENTRY_AGENT2)
  const AFTER_AGENT3 := Put(AFTER_AGENT2, AGENT1, ENTRY_AGENT3)

  /** The first entry line of the sample is stored under "1". */
  lemma FirstNumber()
    ensures START.idx + 1 == 1 && Put(START.entries, NatToS(START.idx + 1), ENTRY_123) == AFTER_123
  {
    assert NatToS(1) == "1";
  }

  lemma NewlineIsBlank()
    ensures Blank("\n")
  {
  }

  /**
   * Four lines in the shape the sample starts with: a blank line, an unnamed entry
   * (given the next number), a comment and the entry it names.
   */
  lemma HeadSteps(L: seq<string>, st: ParseState, pad: string, x1: string, a1: string, x2: string)
    requires st.id == None && Blank(pad) && IsEntryLine(x1) && IsEntryLine(x2) && IsId(a1) && a1 != []
    requires |L| >= 4 && L[0] == "\n" && L[1] == pad + x1 + "\n"
    requires L[2] == pad + ("#" + a1) + "\n" && L[3] == pad + x2 + "\n"
    ensures Run(st, L) == Run(ParseState(st.idx + 1, None, Put(Put(st.entries, NatToS(st.idx + 1), x1), a1, x2)), L[4..])
  {
    var s1 := ParseState(st.idx + 1, None, Put(st.entries, NatToS(st.idx + 1), x1));
    var s2 := s1.(id := Some(a1));
    assert Run(st, L) == Run(st, L[1..]) by {
      NewlineIsBlank();
      RunBlank(st, L);
    }
    assert Run(st, L[1..]) == Run(s1, L[2..]) by {
      RunNumbered(st, L[1..], pad, x1);
      assert L[1..][1..] == L[2..];
    }
    assert Run(s1, L[2..]) == Run(s2, L[3..]) by {
      Tag(a1);
      RunComment(s1, L[2..], pad, "#" + a1, a1);
      assert L[2..][1..] == L[3..];
    }
    assert Run(s2, L[3..]) == Run(ParseState(s1.idx, None, Put(s1.entries, a1, x2)), L[4..]) by {
      RunNamed(s2, L[3..], pad, x2, a1);
      assert L[3..][1..] == L[4..];
    }
  }

  /** Four lines: two blank lines, a comment and the entry it names. */
  lemma MiddleSteps(L: seq<string>, st: ParseState, pad: string, a2: string, x3: string)
    requires st.id == None && Blank(pad) && IsEntryLine(x3) && IsId(a2) && a2 != []
    requires |L| >= 4 && L[0] == "\n" && L[1] == "\n"
    requires L[2] == pad + ("#" + a2) + "\n" && L[3] == pad + x3 + "\n"
    ensures Run(st, L) == Run(ParseState(st.idx, None, Put(st.entries, a2, x3)), L[4..])
  {
    var s4 := st.(id := Some(a2));
    assert Run(st, L) == Run(st, L[2..]) by {
      NewlineIsBlank();
      RunBlank(st, L);
      RunBlank(st, L[1..]);
      assert L[1..][1..] == L[2..];
    }
    assert Run(st, L[2..]) == Run(s4, L[3..]) by {
      Tag(a2);
      RunComment(st, L[2..], pad, "#" + a2, a2);
      assert L[2..][1..] == L[3..];
    }
    assert Run(s4, L[3..]) == Run(ParseState(st.idx, None, Put(st.entries, a2, x3)), L[4..]) by {
      RunNamed(s4, L[3..], pad, x3, a2);
      assert L[3..][1..] == L[4..];
    }
  }

  /**
   * Four closing lines: two comments in a row, of which the second overrides the first,
   * the entry the second names, and a blank tail.
   */
  lemma TailSteps(L: seq<string>, st: ParseState, pad: string, c: string, a1: string, x4: string, tail: string)
    requires st.id == None && Blank(pad) && Blank(tail) && IsEntryLine(x4)
    requires IsId(c) && c != [] && IsId(a1) && a1 != []
    requires |L| == 4 && L[0] == pad + ("#" + c) + "\n" && L[1] == pad + ("#" + a1) + "\n"
    requires L[2] == pad + x4 + "\n" && L[3] == tail
    ensures Run(st, L) == Some(ParseState(st.idx, None, Put(st.entries, a1, x4)))
  {
    var s6 := st.(id := Some(c));
    var s7 := st.(id := Some(a1));
    var s8 := ParseState(st.idx, None, Put(st.entries, a1, x4));
    assert Run(st, L) == Run(s6, L[1..]) by {
      Tag(c);
      RunComment(st, L, pad, "#" + c, c);
    }
    assert Run(s6, L[1..]) == Run(s7, L[2..]) by {
      Tag(a1);
      RunComment(s6, L[1..], pad, "#" + a1, a1);
      assert L[1..][1..] == L[2..];
    }
    assert Run(s7, L[2..]) == Run(s8, L[3..]) by {
      RunNamed(s7, L[2..], pad, x4, a1);
      assert L[2..][1..] == L[3..];
    }
    assert Run(s8, L[3..]) == Some(s8) by {
      RunBlank(s8, L[3..]);
      assert L[3..][1..] == [];
    }
  }

  /** The sample's lines, taken four at a time. */
  lemma ZipRun()
    ensures Run(START, ZIP_LINES) == Some(ParseState(1, None, AFTER_AGENT3))
  {
    var L := ZIP_LINES;
    SampleEntries();
    SampleNames();
    SamplePads();
    FirstNumber();
    HeadSteps(L, START, PAD, ENTRY_123, AGENT1, ENTRY_AGENT1);
    ZipRunRest();
  }

  /** The sample's last eight lines, after the first entry and agent1. */
  lemma ZipRunRest()
    ensures Run(ParseState(1, None, AFTER_AGENT1), ZIP_LINES[4..]) == Some(ParseState(1, None, AFTER_AGENT3))
  {
    var L := ZIP_LINES;
    SampleEntries();
    SampleNames();
    SamplePads();
    assert L[4..][4..] == L[8..];
    MiddleSteps(L[4..], ParseState(1, None, AFTER_AGENT1), PAD, AGENT2, ENTRY_AGENT2);
    TailSteps(L[8..], ParseState(1, None, AFTER_AGENT2), PAD, IGNORED, AGENT1, ENTRY_AGENT3, INDENT);
  }

  lemma ZipHash1()
    ensures AFTER_AGENT1 == Hash(["1", AGENT1], map["1" := ENTRY_123, AGENT1 := ENTRY_AGENT1])
  {
    SampleNames();
    assert AFTER_123 == Hash(["1"], map["1" := ENTRY_123]);
  }

  lemma ZipHash2()
    ensures AFTER_AGENT2 == Hash(["1", AGENT1, AGENT2], map["1" := ENTRY_123, AGENT1 := ENTRY_AGENT1, AGENT2 := ENTRY_AGENT2])
  {
    SampleNames();
    ZipHash1();
  }

  /** The hash the sample gives: agent1 keeps its place and takes the later entry. */
  lemma ZipHash()
    ensures AFTER_AGENT3 == Hash(["1", AGENT1, AGENT2], map["1" := ENTRY_123, AGENT1 := ENTRY_AGENT3, AGENT2 := ENTRY_AGENT2])
  {
    SampleNames();
    ZipHash2();
  }

  /**
   * parseCrontab on the sample crontab: the unnamed first entry is numbered "1", blank
   * lines are skipped, a comment with no entry after it is overridden by the next one,
   * and a later entry under an id replaces the earlier one in its place.
   */
  lemma ZipListing()
    ensures CrontabOf(ZIP_TEXT) == Hash(["1", AGENT1, AGENT2], map["1" := ENTRY_123, AGENT1 := ENTRY_AGENT3, AGENT2 := ENTRY_AGENT2])
  {
    ZipLines();
    ZipRun();
    ZipHash();
  }
}
