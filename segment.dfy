/** Segment assignment of segment.py: the R and F scores are written side
    by side as a two-digit code, the code is rewritten by ten regular
    expressions into a segment name, and customers are counted per segment.
    The script's data frame, whose columns are assigned one after the
    other, is the class `SegmentFrame`. */
module Segment {
  import opened Tables
  import opened Text
  import opened Rfm
  import opened Scoring

  /** `astype(str)` of a score 1..5. */
  function Digit(d: int): char
    requires 1 <= d <= 5
  {
    '0' + d as char
  }

  /** `R.astype(str) + F.astype(str)`: the R digit followed by the F digit. */
  function Code(r: int, f: int): (s: string)
    requires 1 <= r <= 5 && 1 <= f <= 5
    ensures |s| == 2 && '1' <= s[0] <= '5' && '1' <= s[1] <= '5'
    ensures s[0] as int - '0' as int == r && s[1] as int - '0' as int == f
  {
    [Digit(r), Digit(f)]
  }

  /** A character class `[lo-hi]`; a literal digit `d` is `[d-d]`. */
  datatype CharRange = CharRange(lo: char, hi: char)

  predicate InRange(c: char, cr: CharRange) {
    cr.lo <= c <= cr.hi
  }

  /** A two-character pattern and the segment name it is replaced by. */
  datatype Pattern = Pattern(first: CharRange, second: CharRange, name: string)

  /** `seg_map`, in its order. */
  const SegMap: seq<Pattern> := [
    Pattern(CharRange('1', '2'), CharRange('1', '2'), "hibernating"),
    Pattern(CharRange('1', '2'), CharRange('3', '4'), "at_Risk"),
    Pattern(CharRange('1', '2'), CharRange('5', '5'), "cant_loose"),
    Pattern(CharRange('3', '3'), CharRange('1', '2'), "about_to_sleep"),
    Pattern(CharRange('3', '3'), CharRange('3', '3'), "need_attention"),
    Pattern(CharRange('3', '4'), CharRange('4', '5'), "loyal_customers"),
    Pattern(CharRange('4', '4'), CharRange('1', '1'), "promising"),
    Pattern(CharRange('5', '5'), CharRange('1', '1'), "new_customers"),
    Pattern(CharRange('4', '5'), CharRange('2', '3'), "potential_loyalists"),
    Pattern(CharRange('5', '5'), CharRange('4', '5'), "champions")
  ]

  predicate MatchesAt(p: Pattern, s: string, i: int) {
    0 <= i && i + 2 <= |s| && InRange(s[i], p.first) && InRange(s[i + 1], p.second)
  }

  /** `re.sub(pattern, name, s)`: every non-overlapping match, scanning from
      the left, is replaced by the name. */
  function Sub(s: string, p: Pattern): string
    decreases |s|
  {
    if |s| < 2 then s
    else if MatchesAt(p, s, 0) then p.name + Sub(s[2..], p)
    else [s[0]] + Sub(s[1..], p)
  }

  /** `replace(seg_map, regex=True)`: the patterns applied one after the
      other. */
  function ReplaceAll(s: string, pats: seq<Pattern>): string
    decreases |pats|
  {
    if pats == [] then s else ReplaceAll(Sub(s, pats[0]), pats[1..])
  }

  function SegmentOf(code: string): string {
    ReplaceAll(code, SegMap)
  }

  predicate NoScoreDigit(s: string) {
    forall i :: 0 <= i < |s| ==> !('1' <= s[i] <= '5')
  }

  predicate PatternOfDigits(p: Pattern) {
    '1' <= p.first.lo && p.first.hi <= '5' && '1' <= p.second.lo && p.second.hi <= '5'
  }

  /** A pattern of score digits leaves a text without score digits alone. */
  lemma {:induction false} SubOfNoDigit(s: string, p: Pattern)
    requires NoScoreDigit(s) && PatternOfDigits(p)
    ensures Sub(s, p) == s
    decreases |s|
  {
    if |s| >= 2 {
      assert !MatchesAt(p, s, 0);
      SubOfNoDigit(s[1..], p);
      assert [s[0]] + s[1..] == s;
    }
  }

  lemma {:induction false} ReplaceAllOfNoDigit(s: string, pats: seq<Pattern>)
    requires NoScoreDigit(s) && forall i :: 0 <= i < |pats| ==> PatternOfDigits(pats[i])
    ensures ReplaceAll(s, pats) == s
    decreases |pats|
  {
    if pats != [] {
      SubOfNoDigit(s, pats[0]);
      ReplaceAllOfNoDigit(s, pats[1..]);
    }
  }

  /** A pattern that does not match a two-character code leaves it alone;
      one that matches turns it into the pattern's name. */
  lemma SubOfCode(code: string, p: Pattern)
    requires |code| == 2
    ensures MatchesAt(p, code, 0) ==> Sub(code, p) == p.name
    ensures !MatchesAt(p, code, 0) ==> Sub(code, p) == code
  {
    if MatchesAt(p, code, 0) {
      assert p.name + code[2..] == p.name;
    } else {
      assert [code[0]] + [code[1]] == code;
    }
  }

  /** Rewriting a code: the first pattern that matches it names it, and the
      patterns before it leave it alone. */
  lemma {:induction false} ReplaceAllOfCode(code: string, pats: seq<Pattern>, i: int)
    requires |code| == 2 && 0 <= i < |pats| && MatchesAt(pats[i], code, 0)
    requires forall j :: 0 <= j < i ==> !MatchesAt(pats[j], code, 0)
    requires NoScoreDigit(pats[i].name)
    requires forall j :: 0 <= j < |pats| ==> PatternOfDigits(pats[j])
    ensures ReplaceAll(code, pats) == pats[i].name
    decreases i
  {
    SubOfCode(code, pats[0]);
    if i == 0 {
      ReplaceAllOfNoDigit(pats[0].name, pats[1..]);
    } else {
      ReplaceAllOfCode(code, pats[1..], i - 1);
    }
  }

  /** The segment rules as intended: for every R and F score, the pattern
      that matches their code. */
  function Rule(r: int, f: int): (i: int)
    requires 1 <= r <= 5 && 1 <= f <= 5
    ensures 0 <= i < |SegMap|
  {
    if r <= 2 then (if f <= 2 then 0 else if f <= 4 then 1 else 2)
    else if r == 3 then (if f <= 2 then 3 else if f == 3 then 4 else 5)
    else if r == 4 then (if f == 1 then 6 else if f <= 3 then 8 else 5)
    else (if f == 1 then 7 else if f <= 3 then 8 else 9)
  }

  /** Every code of two scores matches exactly one of the ten patterns, so
      the segment assignment is total and unambiguous; the code becomes the
      name of that pattern. */
  lemma SegmentTotalAndUnique(r: int, f: int)
    requires 1 <= r <= 5 && 1 <= f <= 5
    ensures MatchesAt(SegMap[Rule(r, f)], Code(r, f), 0)
    ensures forall j :: 0 <= j < |SegMap| && j != Rule(r, f) ==> !MatchesAt(SegMap[j], Code(r, f), 0)
    ensures SegmentOf(Code(r, f)) == SegMap[Rule(r, f)].name
  {
    OnlyRuleMatches(r, f);
    PatternsOfDigits();
    SegmentNames();
    ReplaceAllOfCode(Code(r, f), SegMap, Rule(r, f));
  }

  /** Whether a pattern matches a code, in terms of the two scores. */
  lemma MatchesCode(p: Pattern, r: int, f: int)
    requires 1 <= r <= 5 && 1 <= f <= 5
    ensures MatchesAt(p, Code(r, f), 0) <==>
      p.first.lo as int - '0' as int <= r <= p.first.hi as int - '0' as int &&
      p.second.lo as int - '0' as int <= f <= p.second.hi as int - '0' as int
  {
  }

  lemma OnlyRuleMatches(r: int, f: int)
    requires 1 <= r <= 5 && 1 <= f <= 5
    ensures forall j :: 0 <= j < |SegMap| ==> (MatchesAt(SegMap[j], Code(r, f), 0) <==> j == Rule(r, f))
  {
    forall j | 0 <= j < |SegMap|
      ensures MatchesAt(SegMap[j], Code(r, f), 0) <==> j == Rule(r, f)
    {
      MatchesCode(SegMap[j], r, f);
    }
  }

  lemma PatternsOfDigits()
    ensures forall j :: 0 <= j < |SegMap| ==> PatternOfDigits(SegMap[j])
  {
  }

  lemma SegmentNames()
    ensures forall j :: 0 <= j < |SegMap| ==> NoScoreDigit(SegMap[j].name)
  {
  }

  /** The worked examples of the segment map (note the capital R of
      `at_Risk`). */
  lemma SegmentExamples()
    ensures SegmentOf("54") == "champions"
    ensures SegmentOf("11") == "hibernating"
    ensures SegmentOf("33") == "need_attention"
    ensures SegmentOf("51") == "new_customers"
    ensures SegmentOf("13") == "at_Risk"
  {
    SegmentTotalAndUnique(5, 4);
    SegmentTotalAndUnique(1, 1);
    SegmentTotalAndUnique(3, 3);
    SegmentTotalAndUnique(5, 1);
    SegmentTotalAndUnique(1, 3);
  }

  /** `groupby('segment').size()`: a (segment, 1) row per customer. */
  function SegmentOnes(segments: seq<string>): seq<(string, int)> {
    Map((s: string) => (s, 1), segments)
  }

  predicate NameLe(a: (string, int), b: (string, int)) {
    StrLe(a.0, b.0)
  }

  predicate CountLe(a: (string, int), b: (string, int)) {
    a.1 <= b.1
  }

  lemma OrdersArePreorders()
    ensures TotalPreorder(NameLe) && TotalPreorder(CountLe)
  {
    StrLeIsTotalPreorder();
  }

  /** `groupby('segment').size().reset_index(name='count')
      .sort_values(by=['count'])`: groups in name order, then sorted by
      count, smallest first. */
  function SegmentCounts(segments: seq<string>): (r: seq<(string, int)>)
    ensures SortedBy(r, CountLe)
    ensures Distinct(Keys(r))
    ensures forall s :: s in Keys(r) <==> s in segments
    ensures forall p :: p in r ==> p.1 == multiset(segments)[p.0]
    ensures Total(r) == |segments|
  {
    OrdersArePreorders();
    var groups := GroupSum(SegmentOnes(segments));
    var r := SortBy(SortBy(groups, NameLe), CountLe);
    SegmentCountFacts(segments, groups, r);
    r
  }

  lemma SegmentCountFacts(segments: seq<string>, groups: seq<(string, int)>, r: seq<(string, int)>)
    requires groups == GroupSum(SegmentOnes(segments))
    requires multiset(r) == multiset(groups)
    ensures Distinct(Keys(r))
    ensures forall s :: s in Keys(r) <==> s in segments
    ensures forall p :: p in r ==> p.1 == multiset(segments)[p.0]
    ensures Total(r) == |segments|
  {
    var ones := SegmentOnes(segments);
    forall s ensures s in Keys(ones) <==> s in segments {
      if s in segments {
        var i :| 0 <= i < |segments| && segments[i] == s;
        assert Keys(ones)[i] == s;
      }
    }
    forall s ensures s in Keys(r) <==> s in Keys(groups) {
      if s in Keys(r) { KeyOfPermutation(r, groups, s); }
      if s in Keys(groups) { KeyOfPermutation(groups, r, s); }
    }
    forall p | p in r ensures p.1 == multiset(segments)[p.0] {
      assert p in multiset(groups);
      OnesCount(segments, p.0);
    }
    assert Distinct(groups) by {
      forall i, j | 0 <= i < j < |groups| ensures groups[i] != groups[j] {
        assert Keys(groups)[i] != Keys(groups)[j];
      }
    }
    DistinctPermutation(r, groups);
    forall i, j | 0 <= i < j < |r| ensures Keys(r)[i] != Keys(r)[j] {
      assert r[i] in multiset(groups) && r[j] in multiset(groups);
    }
    TotalOfPermutation(r, groups);
    GroupSumConservesTotal(ones);
    OnesTotal(segments);
  }

  lemma {:induction false} OnesCount(segments: seq<string>, s: string)
    ensures SumOf(SegmentOnes(segments), s) == multiset(segments)[s]
  {
    if segments != [] {
      var init := segments[..|segments| - 1];
      assert segments == init + [segments[|segments| - 1]];
      assert SegmentOnes(segments)[..|init|] == SegmentOnes(init);
      OnesCount(init, s);
    }
  }

  lemma {:induction false} OnesTotal(segments: seq<string>)
    ensures Total(SegmentOnes(segments)) == |segments|
  {
    if segments != [] {
      var init := segments[..|segments| - 1];
      assert SegmentOnes(segments)[..|init|] == SegmentOnes(init);
      OnesTotal(init);
    }
  }

  /** Every entry is a score from 1 to 5. */
  predicate Scored(s: seq<int>) {
    forall i :: 0 <= i < |s| ==> 1 <= s[i] <= 5
  }

  /** The code column. */
  function Codes(rs: seq<int>, fs: seq<int>): seq<string>
    requires |rs| == |fs| && Scored(rs) && Scored(fs)
  {
    seq(|rs|, i requires 0 <= i < |rs| => Code(rs[i], fs[i]))
  }

  /** The segment column. */
  function Segments(codes: seq<string>): seq<string> {
    seq(|codes|, i requires 0 <= i < |codes| => SegmentOf(codes[i]))
  }

  /** The script's data frame: the columns read from the RFM table and the
      columns the script assigns. */
  class SegmentFrame {
    var customerId: seq<int>
    var recency: seq<int>
    var frequency: seq<int>
    var monetary: seq<int>
    var r: seq<int>
    var f: seq<int>
    var m: seq<int>
    var rfm: seq<string>
    var segment: seq<string>

    /** The columns read from the RFM table have one entry per customer. */
    predicate Valid()
      reads this
    {
      |customerId| == |recency| == |frequency| == |monetary|
    }

    /** The RFM columns read back; the score columns not yet assigned. */
    constructor(rows: seq<RfmRow>)
      ensures Valid()
      ensures customerId == RfmCustomers(rows)
      ensures |recency| == |frequency| == |monetary| == |rows|
      ensures forall i :: 0 <= i < |rows| ==>
        recency[i] == rows[i].recency && frequency[i] == rows[i].frequency && monetary[i] == rows[i].monetary
      ensures r == [] && f == [] && m == [] && rfm == [] && segment == []
    {
      customerId := RfmCustomers(rows);
      recency := seq(|rows|, i requires 0 <= i < |rows| => rows[i].recency);
      frequency := seq(|rows|, i requires 0 <= i < |rows| => rows[i].frequency);
      monetary := seq(|rows|, i requires 0 <= i < |rows| => rows[i].monetary);
      r, f, m, rfm, segment := [], [], [], [], [];
    }


    /** `df['R'] = qcut(recency.rank(method='first'), 5, labels=[5..1])`;
        on an error the frame is left as it was. */
    method AssignR() returns (err: Option<QcutError>)
      requires Valid()
      modifies this
      ensures Valid()
      ensures err.None? <==> RScores(old(recency)).Ok?
      ensures err.None? ==> r == RScores(old(recency)).value
      ensures err.None? ==> |r| == |old(recency)| && Scored(r)
      ensures err.Some? ==> r == old(r)
      ensures customerId == old(customerId) && recency == old(recency) && frequency == old(frequency) && monetary == old(monetary)
      ensures f == old(f) && m == old(m) && rfm == old(rfm) && segment == old(segment)
    {
      match RScores(recency)
      case Ok(scores) =>
        r := scores;
        err := None;
      case Err(e) =>
        err := Some(e);
    }

    /** `df['F'] = qcut(frequency, 5, labels=[1..5])`. */
    method AssignF() returns (err: Option<QcutError>)
      requires Valid()
      modifies this
      ensures Valid()
      ensures err.None? <==> Scores(old(frequency)).Ok?
      ensures err.None? ==> f == Scores(old(frequency)).value
      ensures err.None? ==> |f| == |old(frequency)| && Scored(f)
      ensures err.Some? ==> f == old(f)
      ensures customerId == old(customerId) && recency == old(recency) && frequency == old(frequency) && monetary == old(monetary)
      ensures r == old(r) && m == old(m) && rfm == old(rfm) && segment == old(segment)
    {
      match Scores(frequency)
      case Ok(scores) =>
        f := scores;
        err := None;
      case Err(e) =>
        err := Some(e);
    }

    /** `df['M'] = qcut(monetary, 5, labels=[1..5])`. */
    method AssignM() returns (err: Option<QcutError>)
      requires Valid()
      modifies this
      ensures Valid()
      ensures err.None? <==> Scores(old(monetary)).Ok?
      ensures err.None? ==> m == Scores(old(monetary)).value
      ensures err.Some? ==> m == old(m)
      ensures customerId == old(customerId) && recency == old(recency) && frequency == old(frequency) && monetary == old(monetary)
      ensures r == old(r) && f == old(f) && rfm == old(rfm) && segment == old(segment)
    {
      match Scores(monetary)
      case Ok(scores) =>
        m := scores;
        err := None;
      case Err(e) =>
        err := Some(e);
    }

    /** `df['RFM'] = R.astype(str) + F.astype(str)`: the M score is not
        part of the code. */
    method AssignCode()
      requires Valid()
      requires |r| == |f|
      requires Scored(r) && Scored(f)
      modifies this
      ensures Valid()
      ensures rfm == Codes(old(r), old(f))
      ensures customerId == old(customerId) && recency == old(recency) && frequency == old(frequency) && monetary == old(monetary)
      ensures r == old(r) && f == old(f) && m == old(m) && segment == old(segment)
    {
      rfm := Codes(r, f);
    }

    /** `df['segment'] = df['RFM'].replace(seg_map, regex=True)`. */
    method AssignSegment()
      requires Valid()
      modifies this
      ensures Valid()
      ensures segment == Segments(old(rfm))
      ensures customerId == old(customerId) && recency == old(recency) && frequency == old(frequency) && monetary == old(monetary)
      ensures r == old(r) && f == old(f) && m == old(m) && rfm == old(rfm)
    {
      segment := Segments(rfm);
    }

    /** The three `qcut` assignments, R, F and M, one after the other; the
        first that fails stops the script. */
    method AssignScores() returns (err: Option<QcutError>)
      requires Valid()
      modifies this
      ensures Valid()
      ensures err.None? <==>
        RScores(old(recency)).Ok? && Scores(old(frequency)).Ok? && Scores(old(monetary)).Ok?
      ensures err.None? ==>
        r == RScores(old(recency)).value && f == Scores(old(frequency)).value && m == Scores(old(monetary)).value
      ensures err.None? ==>
        |r| == |f| == |old(recency)| && Scored(r) && Scored(f)
      ensures customerId == old(customerId) && recency == old(recency) && frequency == old(frequency) && monetary == old(monetary)
      ensures rfm == old(rfm) && segment == old(segment)
    {
      ghost var rec, freq := recency, frequency;
      err := AssignR();
      if err.Some? { return; }
      ghost var rs := r;
      assert |rs| == |rec| && Scored(rs);
      err := AssignF();
      if err.Some? { return; }
      ghost var fs := f;
      assert |fs| == |freq| && Scored(fs);
      err := AssignM();
      assert r == rs && f == fs;
    }

    /** The code and segment assignments and the segment counts, once the
        scores are in place. */
    method Label() returns (counts: seq<(string, int)>)
      requires Valid()
      requires |r| == |f|
      requires Scored(r) && Scored(f)
      modifies this
      ensures Valid()
      ensures r == old(r) && f == old(f) && m == old(m)
      ensures customerId == old(customerId) && recency == old(recency) && frequency == old(frequency) && monetary == old(monetary)
      ensures rfm == Codes(r, f)
      ensures |segment| == |r|
      ensures forall i :: 0 <= i < |r| ==> segment[i] == SegMap[Rule(r[i], f[i])].name
      ensures counts == SegmentCounts(segment)
    {
      AssignCode();
      AssignSegment();
      SegmentsOfCodes(r, f);
      counts := SegmentCounts(segment);
    }

    /** The whole script: the three scores, the code, the segment and the
        segment counts.  A failing `qcut` (the M one included, although M is
        not used afterwards) stops the script. */
    method Run() returns (counts: Result<seq<(string, int)>, QcutError>)
      requires Valid()
      modifies this
      ensures Valid()
      ensures counts.Ok? <==>
        RScores(old(recency)).Ok? && Scores(old(frequency)).Ok? && Scores(old(monetary)).Ok?
      ensures counts.Ok? ==>
        r == RScores(old(recency)).value && f == Scores(old(frequency)).value && m == Scores(old(monetary)).value
      ensures counts.Ok? ==>
        && |r| == |f| == |segment| == |old(recency)|
        && (forall i :: 0 <= i < |segment| ==>
             && 1 <= r[i] <= 5 && 1 <= f[i] <= 5
             && segment[i] == SegMap[Rule(r[i], f[i])].name)
        && counts.value == SegmentCounts(segment)
      ensures customerId == old(customerId) && recency == old(recency) && frequency == old(frequency) && monetary == old(monetary)
    {
      var e := AssignScores();
      if e.Some? { return Err(e.value); }
      ghost var rs, fs := r, f;
      var c := Label();
      assert r == rs && f == fs;
      counts := Ok(c);
    }
  }

  /** The segment column of a code column names each row's rule. */
  lemma SegmentsOfCodes(rs: seq<int>, fs: seq<int>)
    requires |rs| == |fs| && Scored(rs) && Scored(fs)
    ensures |Segments(Codes(rs, fs))| == |rs|
    ensures forall i :: 0 <= i < |rs| ==> Segments(Codes(rs, fs))[i] == SegMap[Rule(rs[i], fs[i])].name
  {
    forall i | 0 <= i < |rs| ensures Segments(Codes(rs, fs))[i] == SegMap[Rule(rs[i], fs[i])].name {
      SegmentTotalAndUnique(rs[i], fs[i]);
    }
  }

}
