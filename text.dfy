/** String operations the cleaning stages apply to raw cells: counting a
    character, replacing the first occurrence of a literal pattern, the
    Y/N flag lookup, the decimal price cast (in cents) and the code-point
    order Python's `sorted` uses on column names. */
module Text {
  import opened Tables

  /** Number of occurrences of `c` in `s` (`str.count_match` with a
      one-character pattern). */
  function CountChar(s: string, c: char): nat {
    if s == [] then 0 else CountChar(s[..|s| - 1], c) + (if s[|s| - 1] == c then 1 else 0)
  }

  lemma {:induction false} CountCharConcat(a: string, b: string, c: char)
    ensures CountChar(a + b, c) == CountChar(a, c) + CountChar(b, c)
  {
    if b == [] {
      assert a + b == a;
    } else {
      var init := b[..|b| - 1];
      assert (a + b)[..|a + b| - 1] == a + init;
      CountCharConcat(a, init, c);
    }
  }

  /** `pat` occurs in `s` starting at position `i`. */
  predicate OccursAt(s: string, pat: string, i: int) {
    0 <= i && i + |pat| <= |s| && forall k :: 0 <= k < |pat| ==> s[i + k] == pat[k]
  }

  /** `str.replace(pat, rep)` for a pattern without regular-expression
      metacharacters: the leftmost occurrence of `pat` is replaced by `rep`,
      and a string without an occurrence is left as it is. */
  function ReplaceFirst(s: string, pat: string, rep: string): (r: string)
    requires pat != []
    ensures (forall i :: !OccursAt(s, pat, i)) ==> r == s
    ensures forall i :: OccursAt(s, pat, i) && (forall j :: 0 <= j < i ==> !OccursAt(s, pat, j)) ==>
      r == s[..i] + rep + s[i + |pat|..]
    decreases |s|
  {
    if |s| < |pat| then s
    else if s[..|pat|] == pat then
      assert OccursAt(s, pat, 0);
      rep + s[|pat|..]
    else
      assert !OccursAt(s, pat, 0);
      var r' := ReplaceFirst(s[1..], pat, rep);
      ReplaceFirstStep(s, pat, rep, r');
      [s[0]] + r'
  }

  /** An occurrence at i + 1 in `s` is an occurrence at i in `s[1..]`. */
  lemma ShiftOccurrence(s: string, pat: string)
    requires s != []
    ensures forall i :: 0 <= i ==> (OccursAt(s, pat, i + 1) <==> OccursAt(s[1..], pat, i))
  {
    forall i | 0 <= i ensures OccursAt(s, pat, i + 1) <==> OccursAt(s[1..], pat, i) {
    }
  }

  /** ReplaceFirst's contract carries over from `s[1..]` to `s` when `pat`
      does not start `s`. */
  lemma ReplaceFirstStep(s: string, pat: string, rep: string, r': string)
    requires pat != [] && s != [] && !OccursAt(s, pat, 0)
    requires (forall i :: !OccursAt(s[1..], pat, i)) ==> r' == s[1..]
    requires forall i :: OccursAt(s[1..], pat, i) && (forall j :: 0 <= j < i ==> !OccursAt(s[1..], pat, j)) ==>
      r' == s[1..][..i] + rep + s[1..][i + |pat|..]
    ensures (forall i :: !OccursAt(s, pat, i)) ==> [s[0]] + r' == s
    ensures forall i :: OccursAt(s, pat, i) && (forall j :: 0 <= j < i ==> !OccursAt(s, pat, j)) ==>
      [s[0]] + r' == s[..i] + rep + s[i + |pat|..]
  {
    ShiftOccurrence(s, pat);
    if forall i :: !OccursAt(s, pat, i) {
      NoOccurrenceStep(s, pat);
      assert [s[0]] + s[1..] == s;
    }
    forall i | OccursAt(s, pat, i) && (forall j :: 0 <= j < i ==> !OccursAt(s, pat, j))
      ensures [s[0]] + r' == s[..i] + rep + s[i + |pat|..]
    {
      FirstOccurrenceStep(s, pat, i);
      assert [s[0]] + s[1..][..i - 1] == s[..i];
      assert s[1..][i - 1 + |pat|..] == s[i + |pat|..];
    }
  }

  lemma NoOccurrenceStep(s: string, pat: string)
    requires s != [] && forall i :: !OccursAt(s, pat, i)
    ensures forall i :: !OccursAt(s[1..], pat, i)
  {
    ShiftOccurrence(s, pat);
    forall i | 0 <= i ensures !OccursAt(s[1..], pat, i) {
      assert !OccursAt(s, pat, i + 1);
    }
  }

  lemma FirstOccurrenceStep(s: string, pat: string, i: int)
    requires s != [] && !OccursAt(s, pat, 0)
    requires OccursAt(s, pat, i) && forall j :: 0 <= j < i ==> !OccursAt(s, pat, j)
    ensures i >= 1 && OccursAt(s[1..], pat, i - 1)
    ensures forall j :: 0 <= j < i - 1 ==> !OccursAt(s[1..], pat, j)
  {
    ShiftOccurrence(s, pat);
    assert i != 0;
    forall j | 0 <= j < i - 1 ensures !OccursAt(s[1..], pat, j) {
      assert !OccursAt(s, pat, j + 1);
    }
  }

  /** `map_dict({'N': False, 'Y': True})`: the two flag letters map to
      booleans, every other value (and null) maps to null. */
  function YesNo(flag: Option<string>): (r: Option<bool>)
    ensures r == Some(true) <==> flag == Some("Y")
    ensures r == Some(false) <==> flag == Some("N")
    ensures r == None <==> flag != Some("Y") && flag != Some("N")
  {
    if flag == Some("Y") then Some(true)
    else if flag == Some("N") then Some(false)
    else None
  }

  predicate IsDigit(c: char) {
    '0' <= c <= '9'
  }

  predicate AllDigits(s: string) {
    forall i :: 0 <= i < |s| ==> IsDigit(s[i])
  }

  /** Value of a string of decimal digits. */
  function DigitsValue(s: string): nat
    requires AllDigits(s)
  {
    if s == [] then 0 else 10 * DigitsValue(s[..|s| - 1]) + (s[|s| - 1] - '0') as nat
  }

  /** Position of the first `c` in `s`, or `|s|` when there is none. */
  function IndexOf(s: string, c: char): (i: nat)
    ensures i <= |s| && c !in s[..i] && (i < |s| ==> s[i] == c)
  {
    if s == [] then 0
    else if s[0] == c then 0
    else
      var k := IndexOf(s[1..], c);
      assert s[..k + 1] == [s[0]] + s[1..][..k];
      k + 1
  }

  /** The `cast(Float64)` of a price, read in cents: digits, optionally
      followed by a dot and at most two digits.  Any other text fails. */
  function ParseCents(s: string): Option<int> {
    var dot := IndexOf(s, '.');
    var whole := s[..dot];
    var frac := if dot < |s| then s[dot + 1..] else [];
    if whole == [] || !AllDigits(whole) || !AllDigits(frac) || |frac| > 2 then None
    else Some(100 * DigitsValue(whole) + FractionCents(frac))
  }

  function FractionCents(frac: string): nat
    requires AllDigits(frac) && |frac| <= 2
  {
    if |frac| == 0 then 0 else if |frac| == 1 then 10 * DigitsValue(frac) else DigitsValue(frac)
  }

  /** The shortest decimal numeral of `n`. */
  function Numeral(n: nat): (s: string)
    ensures s != [] && AllDigits(s) && '.' !in s && ',' !in s
    ensures DigitsValue(s) == n
  {
    var last := ['0' + (n % 10) as char];
    if n < 10 then
      assert last[..0] == [];
      last
    else
      var init := Numeral(n / 10);
      assert (init + last)[..|init + last| - 1] == init;
      init + last
  }

  /** A price of `cents` written with two decimals after the separator `sep`. */
  function Decimal(cents: nat, sep: char): string {
    Numeral(cents / 100) + [sep, '0' + (cents / 10 % 10) as char, '0' + (cents % 10) as char]
  }

  /** A price written with a decimal dot reads back as the same amount. */
  lemma ParseDecimal(cents: nat)
    ensures ParseCents(Decimal(cents, '.')) == Some(cents)
  {
    var whole := Numeral(cents / 100);
    var s := Decimal(cents, '.');
    assert s[..|whole|] == whole;
    assert s[|whole|] == '.';
    assert IndexOf(s, '.') == |whole|;
    var frac := s[|whole| + 1..];
    assert frac == ['0' + (cents / 10 % 10) as char, '0' + (cents % 10) as char];
    TwoDigits(cents / 10 % 10, cents % 10);
    CentsDigits(cents);
  }

  /** The value of a two-digit numeral. */
  lemma TwoDigits(d1: nat, d0: nat)
    requires d1 < 10 && d0 < 10
    ensures var frac := ['0' + d1 as char, '0' + d0 as char];
      AllDigits(frac) && DigitsValue(frac) == 10 * d1 + d0
  {
    var frac := ['0' + d1 as char, '0' + d0 as char];
    assert frac[..1] == [frac[0]];
    assert [frac[0]][..0] == [];
    assert DigitsValue(frac[..1]) == d1;
  }

  /** An amount is its whole units and its two cent digits. */
  lemma CentsDigits(cents: nat)
    ensures 100 * (cents / 100) + 10 * (cents / 10 % 10) + cents % 10 == cents
  {
    assert cents / 10 == 10 * (cents / 100) + cents / 10 % 10;
  }

  /** The price cast of the sales stage: a decimal comma is first rewritten to
      a dot (`str.replace(',', '.')`), then the text is read in cents. */
  function CastPrice(s: string): Option<int> {
    ParseCents(ReplaceFirst(s, ",", "."))
  }

  /** A price written with a decimal comma is read as the same amount as
      with a dot. */
  lemma CastCommaPrice(cents: nat)
    ensures CastPrice(Decimal(cents, ',')) == Some(cents)
    ensures CastPrice(Decimal(cents, '.')) == Some(cents)
  {
    CommaBecomesDot(cents);
    DotHasNoComma(cents);
    ParseDecimal(cents);
  }

  lemma CommaBecomesDot(cents: nat)
    ensures ReplaceFirst(Decimal(cents, ','), ",", ".") == Decimal(cents, '.')
  {
    var whole := Numeral(cents / 100);
    var comma := Decimal(cents, ',');
    var k := |whole|;
    assert OccursAt(comma, ",", k);
    forall j | 0 <= j < k ensures !OccursAt(comma, ",", j) {
      assert comma[j + 0] == whole[j] && whole[j] in whole && ","[0] == ',';
    }
    assert comma[..k] + "." + comma[k + 1..] == Decimal(cents, '.');
  }

  lemma DotHasNoComma(cents: nat)
    ensures forall i :: !OccursAt(Decimal(cents, '.'), ",", i)
  {
    var whole := Numeral(cents / 100);
    var dot := Decimal(cents, '.');
    forall i | 0 <= i < |dot| ensures !OccursAt(dot, ",", i) {
      if i < |whole| { assert dot[i] == whole[i] && whole[i] in whole; }
      assert dot[i + 0] != ',' && ","[0] == ',';
    }
  }

  /** Code-point (lexicographic) order on strings, the order of Python's
      `sorted` on column names. */
  predicate StrLe(a: string, b: string) {
    if a == [] then true
    else if b == [] then false
    else if a[0] != b[0] then a[0] < b[0]
    else StrLe(a[1..], b[1..])
  }

  lemma {:induction false} StrLeTotal(a: string, b: string)
    ensures StrLe(a, b) || StrLe(b, a)
  {
    if a != [] && b != [] && a[0] == b[0] { StrLeTotal(a[1..], b[1..]); }
  }

  lemma {:induction false} StrLeTransitive(a: string, b: string, c: string)
    requires StrLe(a, b) && StrLe(b, c)
    ensures StrLe(a, c)
  {
    if a != [] && b != [] && c != [] && a[0] == b[0] == c[0] {
      StrLeTransitive(a[1..], b[1..], c[1..]);
    }
  }

  lemma StrLeIsTotalPreorder()
    ensures TotalPreorder(StrLe)
  {
    forall a, b ensures StrLe(a, b) || StrLe(b, a) { StrLeTotal(a, b); }
    forall a, b, c | StrLe(a, b) && StrLe(b, c) ensures StrLe(a, c) { StrLeTransitive(a, b, c); }
  }
}
