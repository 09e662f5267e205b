/**
 * CronEntry#parse_field: one cron field (a comma list of `*`, values, ranges and
 * steps) expanded to the comma-joined list of the values it selects.
 *
 * The expansion keeps the input order of the comma sub-terms and neither sorts
 * nor removes duplicates, and a step is counted from the low end of the field's
 * domain, not from the start of the sub-term's own range.
 */
module FieldExpander {
  import opened RubyText
  import opened CronTypes

  /**
   * `(lo..hi).to_a.find_all { |i| (i - first) % step == 0 }`: the values of
   * `lo..hi` that lie a whole number of steps above `first`, in ascending order.
   */
  function StepRange(lo: int, hi: int, first: int, step: int): seq<int>
    requires step != 0
    decreases hi - lo
  {
    if lo > hi then []
    else
      var rest := StepRange(lo + 1, hi, first, step);
      if (lo - first) % step == 0 then [lo] + rest else rest
  }

  predicate Ascending(r: seq<int>) {
    forall i, j :: 0 <= i < j < |r| ==> r[i] < r[j]
  }

  /** The range holds exactly the values of `lo..hi` a whole number of steps above `first`, ascending. */
  lemma {:induction false} StepRangeValues(lo: int, hi: int, first: int, step: int)
    requires step != 0
    ensures forall v :: v in StepRange(lo, hi, first, step) <==> lo <= v <= hi && (v - first) % step == 0
    ensures Ascending(StepRange(lo, hi, first, step))
    decreases hi - lo
  {
    if lo <= hi {
      StepRangeValues(lo + 1, hi, first, step);
      var rest := StepRange(lo + 1, hi, first, step);
      if (lo - first) % step == 0 {
        PrependAscending(lo, rest);
      }
    }
  }

  lemma PrependAscending(x: int, r: seq<int>)
    requires Ascending(r) && forall v :: v in r ==> x < v
    ensures Ascending([x] + r)
  {
    var s := [x] + r;
    forall i, j | 0 <= i < j < |s| ensures s[i] < s[j] {
      assert s[j] == r[j - 1] && r[j - 1] in r;
      if i > 0 {
        assert s[i] == r[i - 1];
      }
    }
  }

  /** What the part of a sub-term before its `/` names. */
  datatype RangeSpec =
    | NoRange                     // the sub-term has no part before `/` at all
    | Whole                       // `*`: the whole domain
    | Single(v: int)              // `f`: just `f`, and `nil.to_i == 0` when `f` is empty
    | Span(f: string, l: string)  // `f-l`

  function Classify(term: string): RangeSpec
  {
    var parts := Split(term, '/');
    if parts == [] then NoRange
    else
      var fl := Split(parts[0], '-');
      if |fl| >= 1 && fl[0] == "*" then Whole
      else if |fl| >= 2 then Span(fl[0], fl[1])
      else Single(if fl == [] then 0 else ToI(fl[0]))
  }

  /** The step of a sub-term: the `to_i` of the part after `/`, or 1 when there is none. */
  function StepOf(term: string): int
  {
    var parts := Split(term, '/');
    if |parts| >= 2 then ToI(parts[1]) else 1
  }

  /** The range a sub-term stands for; only the two bounds of an `f-l` range are checked. */
  function Bounds(term: string, first: int, last: int): (r: Result<(int, int)>)
    ensures r.Err? ==> Classify(term).NoRange? || Classify(term).Span?
    ensures r.Ok? && !Classify(term).Single? ==> first <= r.value.0 && r.value.1 <= last
  {
    match Classify(term)
    case NoRange => Err(EmptyTerm)
    case Whole => Ok((first, last))
    case Single(v) => Ok((v, v))
    case Span(f, l) =>
      if ToI(f) < first then Err(FormatError(f, first))
      else if last < ToI(l) then Err(FormatError(l, last))
      else Ok((ToI(f), ToI(l)))
  }

  /** One comma sub-term expanded; a step of 0 divides by zero as soon as the range has a value. */
  function ExpandTerm(term: string, first: int, last: int): (r: Result<seq<int>>)
    ensures r.Err? ==> Bounds(term, first, last).Err? || r.error == ZeroStep
    ensures r.Ok? ==> Bounds(term, first, last).Ok? && Ascending(r.value)
    ensures r.Ok? ==> forall v :: v in r.value ==>
      Bounds(term, first, last).value.0 <= v <= Bounds(term, first, last).value.1
  {
    var b :- Bounds(term, first, last);
    var step := StepOf(term);
    if step == 0 then (if b.0 <= b.1 then Err(ZeroStep) else Ok([]))
    else
      StepRangeValues(b.0, b.1, first, step);
      Ok(StepRange(b.0, b.1, first, step))
  }

  /** The sub-terms expanded in order and flattened; the first failing sub-term raises. */
  function ExpandTerms(terms: seq<string>, first: int, last: int): Result<seq<int>>
  {
    if terms == [] then Ok([])
    else
      var head :- ExpandTerm(terms[0], first, last);
      var tail :- ExpandTerms(terms[1..], first, last);
      Ok(head + tail)
  }

  /** The values a field selects, before they are joined. */
  function ExpandField(field: string, first: int, last: int): Result<seq<int>>
  {
    ExpandTerms(Split(field, ','), first, last)
  }

  /** Each integer written in decimal, as `join` writes it. */
  function Decimals(vs: seq<int>): (r: seq<string>)
    ensures |r| == |vs| && forall i :: 0 <= i < |vs| ==> r[i] == IntToS(vs[i])
  {
    if vs == [] then [] else [IntToS(vs[0])] + Decimals(vs[1..])
  }

  /** `list.join ','` for a list of integers. */
  function Render(vs: seq<int>): string
  {
    Join(Decimals(vs), ',')
  }

  /** CronEntry#parse_field(str, first, last). */
  function ParseField(field: string, first: int, last: int): (r: Result<string>)
    ensures r.Ok? && first >= 0 ==> ExpandField(r.value, first, last) == ExpandField(field, first, last)
  {
    var vs :- ExpandField(field, first, last);
    if first >= 0 then
      ExpandedAllNonNegative(field, first, last);
      RenderExpands(vs, first, last);
      Ok(Render(vs))
    else
      Ok(Render(vs))
  }

  /** parse_field writes back the values the field expands to. */
  lemma ParseFieldOf(field: string, first: int, last: int, vs: seq<int>)
    requires ExpandField(field, first, last) == Ok(vs)
    ensures ParseField(field, first, last) == Ok(Render(vs))
  {
  }

  /** A range can be expanded in two pieces, split at any point. */
  lemma {:induction false} StepRangeSplit(lo: int, mid: int, hi: int, first: int, step: int)
    requires step != 0 && lo <= mid <= hi + 1
    ensures StepRange(lo, hi, first, step) == StepRange(lo, mid - 1, first, step) + StepRange(mid, hi, first, step)
    decreases mid - lo
  {
    if lo < mid {
      StepRangeSplit(lo + 1, mid, hi, first, step);
    }
  }

  lemma {:induction false} JoinAppend(xs: seq<string>, ys: seq<string>, sep: char)
    requires xs != [] && ys != []
    ensures Join(xs + ys, sep) == Join(xs, sep) + [sep] + Join(ys, sep)
    decreases |xs|
  {
    if |xs| > 1 {
      assert (xs + ys)[1..] == xs[1..] + ys;
      JoinAppend(xs[1..], ys, sep);
    } else {
      assert (xs + ys)[1..] == ys;
    }
  }

  /** Joining two lists of values is joining their two renderings with a comma. */
  lemma RenderAppend(a: seq<int>, b: seq<int>)
    requires a != [] && b != []
    ensures Render(a + b) == Render(a) + "," + Render(b)
  {
    assert Decimals(a + b) == Decimals(a) + Decimals(b);
    JoinAppend(Decimals(a), Decimals(b), ',');
  }

  // ------------------------------------------------------------------
  // Properties

  /**
   * The sub-terms are expanded in order: the field succeeds exactly when every
   * sub-term does, and then its values are those of its sub-terms, concatenated.
   */
  lemma {:induction false} ExpandTermsAppend(a: seq<string>, b: seq<string>, first: int, last: int)
    ensures ExpandTerms(a + b, first, last).Ok?
        <==> ExpandTerms(a, first, last).Ok? && ExpandTerms(b, first, last).Ok?
    ensures ExpandTerms(a + b, first, last).Ok? ==>
        ExpandTerms(a + b, first, last).value == ExpandTerms(a, first, last).value + ExpandTerms(b, first, last).value
    decreases |a|
  {
    if a != [] {
      assert (a + b)[0] == a[0] && (a + b)[1..] == a[1..] + b;
      ExpandTermsAppend(a[1..], b, first, last);
    } else {
      assert a + b == b;
    }
  }

  /** An error from a field is the error of its first failing sub-term. */
  lemma {:induction false} ExpandTermsFirstError(terms: seq<string>, first: int, last: int)
    requires ExpandTerms(terms, first, last).Err?
    ensures exists i :: (0 <= i < |terms|
      && (forall j :: 0 <= j < i ==> ExpandTerm(terms[j], first, last).Ok?)
      && ExpandTerm(terms[i], first, last) == Err(ExpandTerms(terms, first, last).error))
  {
    if ExpandTerm(terms[0], first, last).Ok? {
      ExpandTermsFirstError(terms[1..], first, last);
      var i :| 0 <= i < |terms[1..]|
        && (forall j :: 0 <= j < i ==> ExpandTerm(terms[1..][j], first, last).Ok?)
        && ExpandTerm(terms[1..][i], first, last) == Err(ExpandTerms(terms[1..], first, last).error);
      OkBefore(terms, i, first, last);
    } else {
      assert ExpandTerm(terms[0], first, last) == Err(ExpandTerms(terms, first, last).error);
    }
  }

  lemma OkBefore(terms: seq<string>, i: nat, first: int, last: int)
    requires i < |terms| - 1 && ExpandTerm(terms[0], first, last).Ok?
    requires forall j :: 0 <= j < i ==> ExpandTerm(terms[1..][j], first, last).Ok?
    ensures forall j :: 0 <= j < i + 1 ==> ExpandTerm(terms[j], first, last).Ok?
  {
    forall j | 0 <= j < i + 1 ensures ExpandTerm(terms[j], first, last).Ok? {
      if j > 0 { assert terms[j] == terms[1..][j - 1]; }
    }
  }

  /**
   * Where each value of a field comes from: some sub-term produced it, it is a
   * whole number of that sub-term's steps above `first`, and it lies in
   * `first..last` unless that sub-term is a bare value, which nothing checks.
   */
  lemma {:induction false} ExpandTermsValues(terms: seq<string>, first: int, last: int, v: int)
    requires ExpandTerms(terms, first, last).Ok?
    requires v in ExpandTerms(terms, first, last).value
    ensures exists i :: (0 <= i < |terms| && TermYields(terms[i], first, last, v))
  {
    var head := ExpandTerm(terms[0], first, last);
    if v in head.value {
      TermValue(terms[0], first, last, v);
    } else {
      ExpandTermsValues(terms[1..], first, last, v);
      var i :| 0 <= i < |terms[1..]| && TermYields(terms[1..][i], first, last, v);
      assert terms[1..][i] == terms[i + 1];
    }
  }

  /** `v` is one of the values `term` expands to, with the guarantees that come with it. */
  predicate TermYields(term: string, first: int, last: int, v: int) {
    && ExpandTerm(term, first, last).Ok?
    && v in ExpandTerm(term, first, last).value
    && StepOf(term) != 0 && (v - first) % StepOf(term) == 0
    && (Classify(term).Single? || first <= v <= last)
  }

  lemma TermValue(term: string, first: int, last: int, v: int)
    requires ExpandTerm(term, first, last).Ok?
    requires v in ExpandTerm(term, first, last).value
    ensures TermYields(term, first, last, v)
  {
    var b := Bounds(term, first, last).value;
    assert StepOf(term) != 0;
    StepRangeValues(b.0, b.1, first, StepOf(term));
    assert v in StepRange(b.0, b.1, first, StepOf(term));
  }

  /** A range `f-l` fails exactly when `f` is below the domain or `l` above it. */
  lemma SpanIsChecked(term: string, f: string, l: string, first: int, last: int)
    requires Classify(term) == Span(f, l)
    ensures Bounds(term, first, last).Err? <==> ToI(f) < first || last < ToI(l)
    ensures Bounds(term, first, last).Ok? ==>
      first <= Bounds(term, first, last).value.0 && Bounds(term, first, last).value.1 <= last
  {
  }

  /** A bare number is one value, whatever its own digits: the number itself. */
  lemma {:induction false} ExpandNumber(n: int, first: int, last: int)
    requires n >= 0
    ensures ExpandTerm(IntToS(n), first, last) == Ok([n])
  {
    var s := NatToS(n);
    NatToSDigits(n);
    assert forall i :: 0 <= i < |s| ==> s[i] != '/' && s[i] != '-' by {
      assert AllDigits(s);
    }
    SplitOfJoin([s], '/');
    SplitOfJoin([s], '-');
    assert s != "*" by { assert IsDigit(s[0]); }
    ToIOfIntToS(n);
    assert Classify(s) == Single(n);
    assert StepRange(n, n, first, 1) == [n];
  }

  lemma {:induction false} ExpandNumbers(vs: seq<int>, first: int, last: int)
    requires forall i :: 0 <= i < |vs| ==> vs[i] >= 0
    ensures ExpandTerms(Decimals(vs), first, last) == Ok(vs)
    decreases |vs|
  {
    if vs != [] {
      ExpandNumber(vs[0], first, last);
      ExpandNumbers(vs[1..], first, last);
      assert Decimals(vs)[1..] == Decimals(vs[1..]);
      assert vs == [vs[0]] + vs[1..];
    }
  }

  /**
   * The joined output of the expander is a fixed point of it: a comma list of
   * non-negative numbers expands to exactly those numbers, in that order.
   */
  lemma RenderExpands(vs: seq<int>, first: int, last: int)
    requires forall i :: 0 <= i < |vs| ==> vs[i] >= 0
    ensures ExpandField(Render(vs), first, last) == Ok(vs)
  {
    var ts := Decimals(vs);
    forall i | 0 <= i < |ts| ensures ',' !in ts[i] {
      var s := ts[i];
      NatToSDigits(vs[i]);
      assert AllDigits(s);
      assert forall j :: 0 <= j < |s| ==> s[j] != ',';
    }
    SplitOfJoin(ts, ',');
    ExpandNumbers(vs, first, last);
  }

  /** A bare value has no `-` in it, so its `to_i` is never negative. */
  lemma SingleNonNegative(term: string)
    requires Classify(term).Single?
    ensures Classify(term).v >= 0
  {
    var parts := Split(term, '/');
    var fl := Split(parts[0], '-');
    if fl != [] {
      assert '-' !in fl[0];
      assert fl[0] == [] || fl[0][0] != '-';
    }
  }

  /** Every value of a field whose domain starts at 0 or above is non-negative. */
  lemma ExpandedNonNegative(field: string, first: int, last: int, v: int)
    requires first >= 0
    requires ExpandField(field, first, last).Ok?
    requires v in ExpandField(field, first, last).value
    ensures v >= 0
  {
    var terms := Split(field, ',');
    ExpandTermsValues(terms, first, last, v);
    var i :| 0 <= i < |terms| && TermYields(terms[i], first, last, v);
    var c := Classify(terms[i]);
    if c.Single? {
      SingleNonNegative(terms[i]);
      assert Bounds(terms[i], first, last) == Ok((c.v, c.v));
      StepRangeValues(c.v, c.v, first, StepOf(terms[i]));
      assert v in StepRange(c.v, c.v, first, StepOf(terms[i]));
    }
  }

  /** Over a domain starting at 0 or above, a field expands to non-negative values only. */
  lemma ExpandedAllNonNegative(field: string, first: int, last: int)
    requires first >= 0
    requires ExpandField(field, first, last).Ok?
    ensures forall i :: 0 <= i < |ExpandField(field, first, last).value| ==> ExpandField(field, first, last).value[i] >= 0
  {
    var vs := ExpandField(field, first, last).value;
    forall i | 0 <= i < |vs| ensures vs[i] >= 0 {
      ExpandedNonNegative(field, first, last, vs[i]);
    }
  }

  // ------------------------------------------------------------------
  // Sub-terms written from numbers

  lemma DigitsAvoid(n: int, c: char)
    requires n >= 0 && !IsDigit(c)
    ensures c !in IntToS(n)
  {
    var s := IntToS(n);
    NatToSDigits(n);
    assert AllDigits(s);
    assert forall i :: 0 <= i < |s| ==> s[i] != c;
  }

  /** `f-l/step` written from non-negative numbers is the range `f-l` with that step. */
  lemma SteppedSpanTerm(f: int, l: int, step: int)
    requires f >= 0 && l >= 0 && step >= 0
    ensures Classify(IntToS(f) + "-" + IntToS(l) + "/" + IntToS(step)) == Span(IntToS(f), IntToS(l))
    ensures StepOf(IntToS(f) + "-" + IntToS(l) + "/" + IntToS(step)) == step
  {
    var fs, ls, ss := IntToS(f), IntToS(l), IntToS(step);
    NatToSDigits(f);
    DigitsAvoid(f, '-'); DigitsAvoid(l, '-'); DigitsAvoid(f, '/'); DigitsAvoid(l, '/'); DigitsAvoid(step, '/');
    var range := fs + "-" + ls;
    assert '/' !in range by {
      assert forall i :: 0 <= i < |range| ==> range[i] != '/' by {
        forall i | 0 <= i < |range| ensures range[i] != '/' {
          if i < |fs| { assert range[i] == fs[i]; }
          else if i > |fs| { assert range[i] == ls[i - |fs| - 1]; }
        }
      }
    }
    assert Join([range, ss], '/') == fs + "-" + ls + "/" + ss;
    SplitOfJoin([range, ss], '/');
    assert Join([fs, ls], '-') == range;
    SplitOfJoin([fs, ls], '-');
    assert fs != "*" by { assert IsDigit(fs[0]); }
    ToIOfIntToS(step);
  }

  /** `f-l` written from non-negative numbers is the range `f-l` with step 1. */
  lemma SpanTerm(f: int, l: int)
    requires f >= 0 && l >= 0
    ensures Classify(IntToS(f) + "-" + IntToS(l)) == Span(IntToS(f), IntToS(l))
    ensures StepOf(IntToS(f) + "-" + IntToS(l)) == 1
  {
    var fs, ls := IntToS(f), IntToS(l);
    NatToSDigits(f);
    DigitsAvoid(f, '-'); DigitsAvoid(l, '-'); DigitsAvoid(f, '/'); DigitsAvoid(l, '/');
    var range := fs + "-" + ls;
    assert '/' !in range by {
      assert forall i :: 0 <= i < |range| ==> range[i] != '/' by {
        forall i | 0 <= i < |range| ensures range[i] != '/' {
          if i < |fs| { assert range[i] == fs[i]; }
          else if i > |fs| { assert range[i] == ls[i - |fs| - 1]; }
        }
      }
    }
    SplitOfJoin([range], '/');
    assert Join([fs, ls], '-') == range;
    SplitOfJoin([fs, ls], '-');
    assert fs != "*" by { assert IsDigit(fs[0]); }
  }

  /** A field with no comma is one sub-term. */
  lemma OneTerm(field: string, first: int, last: int)
    requires field != [] && ',' !in field
    ensures ExpandField(field, first, last) == ExpandTerm(field, first, last)
  {
    SplitOfJoin([field], ',');
    assert Split(field, ',') == [field];
    assert [field][1..] == [];
    assert ExpandTerms([field][1..], first, last) == Ok([]);
    match ExpandTerm(field, first, last)
    case Ok(vs) => assert vs + [] == vs;
    case Err(_) =>
  }

  /** A stepped range inside the domain selects its values a whole number of steps above the domain's low end. */
  lemma ExpandSteppedSpan(f: int, l: int, step: int, first: int, last: int)
    requires 0 <= f && 0 <= l && 0 < step
    requires first <= f && l <= last
    ensures ExpandField(IntToS(f) + "-" + IntToS(l) + "/" + IntToS(step), first, last)
         == Ok(StepRange(f, l, first, step))
  {
    var t := IntToS(f) + "-" + IntToS(l) + "/" + IntToS(step);
    SteppedSpanTerm(f, l, step);
    ToIOfIntToS(f);
    ToIOfIntToS(l);
    assert Bounds(t, first, last) == Ok((f, l));
    assert ',' !in t by {
      DigitsAvoid(f, ',');
      DigitsAvoid(l, ',');
      DigitsAvoid(step, ',');
    }
    OneTerm(t, first, last);
  }

  /** A range `f-l` with `f` in the domain but `l` above it raises FormatError naming `l`. */
  lemma SpanAboveDomain(f: int, l: int, first: int, last: int)
    requires 0 <= f && 0 <= l
    requires first <= f && last < l
    ensures ExpandField(IntToS(f) + "-" + IntToS(l), first, last) == Err(FormatError(IntToS(l), last))
  {
    var t := IntToS(f) + "-" + IntToS(l);
    SpanTerm(f, l);
    ToIOfIntToS(f);
    ToIOfIntToS(l);
    assert Bounds(t, first, last) == Err(FormatError(IntToS(l), last));
    assert ',' !in t by {
      DigitsAvoid(f, ',');
      DigitsAvoid(l, ',');
    }
    OneTerm(t, first, last);
  }

  // ------------------------------------------------------------------
  // Cases from the library's tests and documentation

  /** Two single minutes: `"5,35"` stays `"5,35"`. */
  lemma MinuteList()
    ensures ParseField("5,35", 0, 59) == Ok("5,35")
  {
    assert Render([5, 35]) == "5,35";
    RenderExpands([5, 35], 0, 59);
  }

  lemma EvenHours()
    ensures StepRange(0, 23, 0, 2) == [0, 2, 4, 6, 8, 10, 12, 14, 16, 18, 20, 22]
  {
    StepRangeSplit(0, 12, 23, 0, 2);
  }

  /** `"0-23/2"` in the hour field gives every even hour. */
  lemma HourEveryTwo()
    ensures ExpandField("0-23/2", 0, 23) == Ok([0, 2, 4, 6, 8, 10, 12, 14, 16, 18, 20, 22])
  {
    EvenHours();
    HourTerm();
  }

  /** The text of the stepped range 0 to 23 by 2. */
  lemma HourText()
    ensures IntToS(0) + "-" + IntToS(23) + "/" + IntToS(2) == "0-23/2"
  {
    assert IntToS(0) == "0" && IntToS(23) == "23" && IntToS(2) == "2";
  }

  lemma HourTerm()
    ensures ExpandField("0-23/2", 0, 23) == Ok(StepRange(0, 23, 0, 2))
  {
    HourText();
    ExpandSteppedSpan(0, 23, 2, 0, 23);
  }

  /** With step 1 nothing is filtered out: the range is every integer from `lo` to `hi`. */
  lemma {:induction false} UnitStepRange(lo: int, hi: int, first: int)
    requires lo <= hi + 1
    ensures StepRange(lo, hi, first, 1) == seq(hi - lo + 1, i => lo + i)
    decreases hi - lo
  {
    if lo <= hi {
      UnitStepRange(lo + 1, hi, first);
    }
  }

  /** `"*"` in the day field gives every day from 1 to 31, in order. */
  lemma EveryDay()
    ensures ExpandField("*", 1, 31) == Ok(seq(31, i => i + 1))
  {
    UnitStepRange(1, 31, 1);
    assert seq(31 - 1 + 1, i => 1 + i) == seq(31, i => i + 1);
    StarTerm(1, 31);
  }

  /** `"*"` in the month field gives every month from 1 to 12, in order. */
  lemma EveryMonth()
    ensures ExpandField("*", 1, 12) == Ok(seq(12, i => i + 1))
  {
    UnitStepRange(1, 12, 1);
    assert seq(12 - 1 + 1, i => 1 + i) == seq(12, i => i + 1);
    StarTerm(1, 12);
  }

  /** `"*"` in the weekday field gives every weekday from 0 to 6, in order. */
  lemma EveryWeekday()
    ensures ExpandField("*", 0, 6) == Ok(seq(7, i => i))
  {
    WeekdayRange();
    StarTerm(0, 6);
  }

  /** The weekdays 0 to 6 one step apart. */
  lemma WeekdayRange()
    ensures StepRange(0, 6, 0, 1) == seq(7, i => i)
  {
    UnitStepRange(0, 6, 0);
    assert seq(6 - 0 + 1, i => 0 + i) == seq(7, i => i);
  }

  /** `*` is the whole domain. */
  lemma StarTerm(first: int, last: int)
    ensures ExpandField("*", first, last) == Ok(StepRange(first, last, first, 1))
  {
    StarRange(first, last);
    OneTerm("*", first, last);
  }

  /** The sub-term `*` stands for the domain, with step 1. */
  lemma StarRange(first: int, last: int)
    ensures ExpandTerm("*", first, last) == Ok(StepRange(first, last, first, 1))
  {
    SplitOne("*", '/');
    SplitOne("*", '-');
    assert Classify("*") == Whole;
    assert StepOf("*") == 1;
  }

  /** `"1-85"` in the minute field is out of range at its upper bound. */
  lemma MinuteOutOfRange()
    ensures ExpandField("1-85", 0, 59) == Err(FormatError("85", 59))
  {
    OutOfRangeText();
    SpanAboveDomain(1, 85, 0, 59);
  }

  /** The text of the range 1 to 85. */
  lemma OutOfRangeText()
    ensures IntToS(1) + "-" + IntToS(85) == "1-85" && IntToS(85) == "85"
  {
    assert IntToS(1) == "1" && IntToS(85) == "85";
  }

  /** A stepped range counts its steps from the domain's low end: `"1-9/2"` gives the even minutes 2 to 8. */
  lemma StepFromDomainStart()
    ensures ExpandField("1-9/2", 0, 59) == Ok([2, 4, 6, 8])
  {
    assert StepRange(1, 9, 0, 2) == [2, 4, 6, 8];
    OddStartTerm();
  }

  lemma OddStartTerm()
    ensures ExpandField("1-9/2", 0, 59) == Ok(StepRange(1, 9, 0, 2))
  {
    OddStartText();
    ExpandSteppedSpan(1, 9, 2, 0, 59);
  }

  /** The text of the stepped range 1 to 9 by 2. */
  lemma OddStartText()
    ensures IntToS(1) + "-" + IntToS(9) + "/" + IntToS(2) == "1-9/2"
  {
    assert IntToS(1) == "1" && IntToS(9) == "9" && IntToS(2) == "2";
  }

  /** The sub-terms' values are neither sorted nor made unique: `"35,5,5"` stays as written. */
  lemma OrderAndRepeatsKept()
    ensures ExpandField("35,5,5", 0, 59) == Ok([35, 5, 5])
  {
    assert Render([35, 5, 5]) == "35,5,5";
    RenderExpands([35, 5, 5], 0, 59);
  }

  /** A single value is not checked against the domain: minute `"99"` is accepted. */
  lemma SingleValueUnchecked()
    ensures ExpandField("99", 0, 59) == Ok([99])
  {
    assert Render([99]) == "99";
    RenderExpands([99], 0, 59);
  }
}
