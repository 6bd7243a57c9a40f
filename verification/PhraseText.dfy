/**
 * Character classes and boundary scanners of app/speech/phrases.py.
 *
 * Python's `str.isalpha`, `str.isdigit`, `str.strip` and `str.lower` are
 * parameters: nothing below depends on the Unicode tables beyond `Lawful`.
 */
module PhraseText {

  datatype CharTable = CharTable(
    isAlpha: char -> bool,
    isDigit: char -> bool,
    isSpace: char -> bool,
    lower: string -> string)

  predicate IsWs(c: char) {
    c == ' ' || c == '\t' || c == '\n' || c == '\r'
  }

  predicate IsCloser(c: char) {
    c == '"' || c == '\'' || c == '\U{201D}' || c == '\U{2019}' || c == ')' || c == ']' || c == '}'
  }

  predicate IsGap(c: char) {
    IsWs(c) || IsCloser(c)
  }

  /** The terminals that need no lookahead: ! ? and the three CJK forms. */
  predicate IsHard(c: char) {
    c == '!' || c == '?' || c == '\U{3002}' || c == '\U{FF01}' || c == '\U{FF1F}'
  }

  predicate IsTerminal(c: char) {
    c == '.' || IsHard(c)
  }

  const ABBREVIATIONS: set<string> := {
    "dr", "mr", "mrs", "ms", "prof",
    "sr", "jr", "st", "rev", "hon",
    "capt", "col", "gen", "lt", "maj",
    "sgt", "cpl", "gov", "sen", "rep",
    "esq"
  }

  /** What Python guarantees of blank, tab, newline and carriage return. */
  ghost predicate Lawful(a: CharTable) {
    forall c: char :: IsWs(c) ==> a.isSpace(c) && !a.isAlpha(c) && !a.isDigit(c)
  }

  type Chars = a: CharTable | Lawful(a)
    witness CharTable(c => false, c => false, c => IsWs(c), s => s)

  // ---------------------------------------------------------------- scanners

  /** First position at or after `i` whose character fails `p`. */
  function SkipWhile(p: char -> bool, t: string, i: nat): (j: nat)
    requires i <= |t|
    ensures i <= j <= |t|
    ensures forall k :: i <= k < j ==> p(t[k])
    ensures j < |t| ==> !p(t[j])
    decreases |t| - i
  {
    if i < |t| && p(t[i]) then SkipWhile(p, t, i + 1) else i
  }

  /** Start of the run of letters that ends just before `pos`. */
  function WordStart(a: CharTable, t: string, pos: nat): (s: nat)
    requires pos <= |t|
    ensures s <= pos
    ensures forall k :: s <= k < pos ==> a.isAlpha(t[k])
    ensures s > 0 ==> !a.isAlpha(t[s - 1])
  {
    if pos > 0 && a.isAlpha(t[pos - 1]) then WordStart(a, t, pos - 1) else pos
  }

  /** Something other than whitespace and closers follows the period. */
  predicate Resolvable(t: string, pos: nat)
    requires pos < |t|
  {
    SkipWhile(IsGap, t, pos + 1) < |t|
  }

  predicate InDecimal(a: CharTable, t: string, pos: nat)
    requires pos < |t|
  {
    pos > 0 && a.isDigit(t[pos - 1]) && pos + 1 < |t| && a.isDigit(t[pos + 1])
  }

  predicate InEllipsis(t: string, pos: nat)
    requires pos < |t|
  {
    (pos > 0 && t[pos - 1] == '.') || (pos + 1 < |t| && t[pos + 1] == '.')
  }

  predicate KnownAbbreviation(a: CharTable, word: string) {
    1 <= |word| <= 6 && a.lower(word) in ABBREVIATIONS
  }

  /** The run of letters just before `pos`. */
  function WordBefore(a: CharTable, t: string, pos: nat): string
    requires pos <= |t|
  {
    t[WordStart(a, t, pos)..pos]
  }

  /** The first character after the period, closers and whitespace is a letter. */
  predicate LetterFollows(a: CharTable, t: string, pos: nat)
    requires pos < |t|
  {
    var next := SkipWhile(IsGap, t, pos + 1);
    next < |t| && a.isAlpha(t[next])
  }

  predicate InAbbreviation(a: CharTable, t: string, pos: nat)
    requires pos < |t|
  {
    KnownAbbreviation(a, WordBefore(a, t, pos)) && LetterFollows(a, t, pos)
  }

  /** A confirmed sentence boundary at `pos`. */
  predicate IsTerminator(a: CharTable, t: string, pos: nat)
    requires pos < |t|
  {
    || IsHard(t[pos])
    || (&& t[pos] == '.'
        && Resolvable(t, pos)
        && !InDecimal(a, t, pos)
        && !InEllipsis(t, pos)
        && !InAbbreviation(a, t, pos))
  }

  /** First confirmed boundary in t[i..end], or `end`. */
  function FirstTerminator(a: CharTable, t: string, i: nat, end: nat): (j: nat)
    requires i <= end <= |t|
    ensures i <= j <= end
    ensures forall k :: i <= k < j ==> !IsTerminator(a, t, k)
    ensures j < end ==> IsTerminator(a, t, j)
    decreases end - i
  {
    if i == end || IsTerminator(a, t, i) then i else FirstTerminator(a, t, i + 1, end)
  }

  /** Whitespace-only in Python's sense: `not s.strip()`. */
  predicate Blank(a: CharTable, s: string) {
    forall k :: 0 <= k < |s| ==> a.isSpace(s[k])
  }

  // ------------------------------------------------- the same, in characters alone

  const LISTED: set<string> := {
    "dr", "mr", "mrs", "ms", "prof", "sr", "jr", "st", "rev", "hon", "capt",
    "col", "gen", "lt", "maj", "sgt", "cpl", "gov", "sen", "rep", "esq"
  }

  const HARD := "!?\U{3002}\U{FF01}\U{FF1F}"
  const WHITE := " \t\n\r"
  const CLOSING := "\"'\U{201D}\U{2019})]}"

  /** `n` is the first character after `p` that is neither whitespace nor a closer. */
  predicate Decides(t: string, p: int, n: int) {
    0 <= p < n < |t| && t[n] !in WHITE + CLOSING && forall k :: p < k < n ==> t[k] in WHITE + CLOSING
  }

  predicate BetweenDigits(a: CharTable, t: string, p: int) {
    0 < p < |t| - 1 && a.isDigit(t[p - 1]) && a.isDigit(t[p + 1])
  }

  predicate ByAPeriod(t: string, p: int) {
    (0 < p <= |t| && t[p - 1] == '.') || (0 <= p < |t| - 1 && t[p + 1] == '.')
  }

  /** The letters just before `p` are the word t[s..p]. */
  predicate WordAt(a: CharTable, t: string, s: int, p: int) {
    && 0 <= s < p <= |t|
    && (forall k :: s <= k < p ==> a.isAlpha(t[k]))
    && (s > 0 ==> !a.isAlpha(t[s - 1]))
  }

  /** A listed word (of six letters at most) before the period and a letter after it. */
  ghost predicate AfterTitle(a: CharTable, t: string, p: int) {
    exists s, n :: WordAt(a, t, s, p) && Decides(t, p, n) && p - s <= 6 && a.lower(t[s..p]) in LISTED && a.isAlpha(t[n])
  }

  /** A period that belongs to a number, an ellipsis or a title. */
  ghost predicate Spared(a: CharTable, t: string, p: int) {
    BetweenDigits(a, t, p) || ByAPeriod(t, p) || AfterTitle(a, t, p)
  }

  /** The phrase ends at `p`. */
  ghost predicate Ends(a: CharTable, t: string, p: int) {
    && 0 <= p < |t|
    && (t[p] in HARD || (t[p] == '.' && (exists n :: Decides(t, p, n)) && !Spared(a, t, p)))
  }

  lemma DecidesIs(t: string, p: nat, n: int)
    requires p < |t|
    ensures Decides(t, p, n) <==> n == SkipWhile(IsGap, t, p + 1) < |t|
  {
  }

  lemma DecidesSome(t: string, p: nat)
    requires p < |t|
    ensures Resolvable(t, p) <==> exists n :: Decides(t, p, n)
  {
    DecidesIs(t, p, SkipWhile(IsGap, t, p + 1));
    if exists n :: Decides(t, p, n) {
      var n :| Decides(t, p, n);
      DecidesIs(t, p, n);
    }
  }

  lemma WordAtIs(a: CharTable, t: string, s: int, p: nat)
    requires p <= |t|
    ensures WordAt(a, t, s, p) <==> s == WordStart(a, t, p) < p
  {
  }

  lemma AfterTitleIs(a: CharTable, t: string, p: nat)
    requires p < |t|
    ensures AfterTitle(a, t, p) <==> InAbbreviation(a, t, p)
  {
    var s, n := WordStart(a, t, p), SkipWhile(IsGap, t, p + 1);
    WordAtIs(a, t, s, p);
    DecidesIs(t, p, n);
    if AfterTitle(a, t, p) {
      var s', n' :| WordAt(a, t, s', p) && Decides(t, p, n') && p - s' <= 6
        && a.lower(t[s'..p]) in LISTED && a.isAlpha(t[n']);
      WordAtIs(a, t, s', p);
      DecidesIs(t, p, n');
    }
  }

  /** The confirmed boundaries are the characters at which a phrase ends. */
  lemma TerminatorsAreEnds(a: CharTable, t: string, p: nat)
    requires p < |t|
    ensures IsTerminator(a, t, p) <==> Ends(a, t, p)
  {
    DecidesSome(t, p);
    AfterTitleIs(a, t, p);
  }

  // ------------------------------------------------- the scanners as the source runs them

  method PeriodCanResolve(t: string, pos: nat) returns (r: bool)
    ensures r <==> pos >= |t| || t[pos] != '.' || Resolvable(t, pos)
    ensures r <==> pos >= |t| || t[pos] != '.' || exists n :: Decides(t, pos, n)
  {
    if pos < |t| {
      DecidesSome(t, pos);
    }
    if pos >= |t| || t[pos] != '.' {
      return true;
    }
    var i := pos + 1;
    while i < |t| && (IsWs(t[i]) || IsCloser(t[i]))
      invariant pos < i <= |t|
      invariant SkipWhile(IsGap, t, pos + 1) == SkipWhile(IsGap, t, i)
    {
      i := i + 1;
    }
    return i < |t|;
  }

  method ConfirmTerminator(a: CharTable, t: string, pos: nat) returns (r: bool)
    requires pos < |t|
    ensures r == IsTerminator(a, t, pos) && r == Ends(a, t, pos)
  {
    TerminatorsAreEnds(a, t, pos);
    var ch := t[pos];
    if !IsTerminal(ch) {
      return false;
    }
    if ch != '.' {
      return true;
    }
    var decided := PeriodCanResolve(t, pos);
    if !decided {
      return false;
    }
    if pos > 0 && a.isDigit(t[pos - 1]) {
      if pos + 1 < |t| && a.isDigit(t[pos + 1]) {
        return false;
      }
    }
    if (pos > 0 && t[pos - 1] == '.') || (pos + 1 < |t| && t[pos + 1] == '.') {
      return false;
    }
    var titled := AfterKnownWord(a, t, pos);
    return !titled;
  }

  /** The period at `pos` follows a known abbreviation, and a letter follows it. */
  method AfterKnownWord(a: CharTable, t: string, pos: nat) returns (r: bool)
    requires pos < |t|
    ensures r == InAbbreviation(a, t, pos)
  {
    var start := pos - 1;
    while start >= 0 && a.isAlpha(t[start])
      invariant -1 <= start < pos
      invariant WordStart(a, t, start + 1) == WordStart(a, t, pos)
    {
      start := start - 1;
    }
    start := start + 1;
    var word := t[start..pos];
    assert word == WordBefore(a, t, pos);
    if 1 <= |word| <= 6 && a.lower(word) in ABBREVIATIONS {
      var i := pos + 1;
      while i < |t| && (IsWs(t[i]) || IsCloser(t[i]))
        invariant pos < i <= |t|
        invariant SkipWhile(IsGap, t, pos + 1) == SkipWhile(IsGap, t, i)
      {
        i := i + 1;
      }
      return i < |t| && a.isAlpha(t[i]);
    }
    return false;
  }

  // --------------------------------------------------------- stability of verdicts

  lemma {:induction false} SkipWhileAppend(p: char -> bool, t: string, u: string, i: nat)
    requires i <= |t|
    ensures SkipWhile(p, t, i) < |t| ==> SkipWhile(p, t + u, i) == SkipWhile(p, t, i)
    ensures SkipWhile(p, t, i) == |t| ==> SkipWhile(p, t + u, i) == |t| + SkipWhile(p, u, 0)
  {
    var j, j' := SkipWhile(p, t, i), SkipWhile(p, t + u, i);
    assert forall k :: 0 <= k < |t| ==> (t + u)[k] == t[k];
    assert forall k :: 0 <= k < |u| ==> (t + u)[|t| + k] == u[k];
    if j < |t| {
      assert !p((t + u)[j]) && j' <= j;
      assert j' == j;
    } else {
      var k := SkipWhile(p, u, 0);
      assert j' >= |t|;
      assert forall m :: i <= m < |t| + k ==> p((t + u)[m]) by {
        forall m | i <= m < |t| + k
          ensures p((t + u)[m])
        {
          if m >= |t| {
            assert (t + u)[m] == u[m - |t|];
          }
        }
      }
      assert j' < |t| + |u| ==> !p(u[j' - |t|]);
      assert k < |u| ==> !p((t + u)[|t| + k]);
    }
  }

  lemma {:induction false} WordStartAppend(a: CharTable, t: string, u: string, pos: nat)
    requires pos <= |t|
    ensures WordStart(a, t + u, pos) == WordStart(a, t, pos)
  {
    if pos > 0 {
      assert (t + u)[pos - 1] == t[pos - 1];
      WordStartAppend(a, t, u, pos - 1);
    }
  }

  lemma {:induction false} WordBeforeAppend(a: CharTable, t: string, u: string, pos: nat)
    requires pos <= |t|
    ensures WordBefore(a, t + u, pos) == WordBefore(a, t, pos)
  {
    WordStartAppend(a, t, u, pos);
    var s := WordStart(a, t, pos);
    assert (t + u)[s..pos] == t[s..pos];
  }

  /** Boundary stability: a decided verdict is the verdict in every extension. */
  lemma VerdictStable(a: CharTable, t: string, u: string, pos: nat)
    requires pos < |t|
    requires t[pos] != '.' || Resolvable(t, pos)
    ensures (t + u)[pos] != '.' || Resolvable(t + u, pos)
    ensures IsTerminator(a, t + u, pos) == IsTerminator(a, t, pos)
  {
    assert (t + u)[pos] == t[pos];
    if t[pos] == '.' {
      SkipWhileAppend(IsGap, t, u, pos + 1);
      WordBeforeAppend(a, t, u, pos);
    }
  }

  /** While a period is undecided nothing after it can be a boundary. */
  lemma UndecidedBlocks(a: CharTable, t: string, pos: nat, later: nat)
    requires pos < later < |t|
    requires t[pos] == '.' && !Resolvable(t, pos)
    ensures IsGap(t[later])
    ensures !IsTerminator(a, t, later)
  {
  }

  /** So the first boundary of a text is never retracted or overtaken by more text. */
  lemma FirstTerminatorStable(a: CharTable, t: string, u: string)
    requires FirstTerminator(a, t, 0, |t|) < |t|
    ensures FirstTerminator(a, t + u, 0, |t + u|) == FirstTerminator(a, t, 0, |t|)
  {
    var i := FirstTerminator(a, t, 0, |t|);
    forall k | 0 <= k <= i
      ensures IsTerminator(a, t + u, k) == IsTerminator(a, t, k)
    {
      if t[k] == '.' && !Resolvable(t, k) && k < i {
        UndecidedBlocks(a, t, k, i);
      }
      VerdictStable(a, t, u, k);
    }
  }

  /**
   * The first boundary of an extended text is already confirmed in a prefix
   * that reaches its deciding character.
   */
  lemma FirstTerminatorSeen(a: CharTable, t: string, u: string)
    requires var i := FirstTerminator(a, t + u, 0, |t + u|);
      i < |t| && (t[i] != '.' || Resolvable(t, i))
    ensures FirstTerminator(a, t, 0, |t|) == FirstTerminator(a, t + u, 0, |t + u|)
  {
    var i := FirstTerminator(a, t + u, 0, |t + u|);
    VerdictStable(a, t, u, i);
    if FirstTerminator(a, t, 0, |t|) < i {
      FirstTerminatorStable(a, t, u);
    }
  }

  // ------------------------------------------------------ dropping leading whitespace

  function LeadingWs(t: string): (w: nat)
    ensures w <= |t|
  {
    SkipWhile(IsWs, t, 0)
  }

  function DropWs(t: string): (r: string)
    ensures r != "" ==> !IsWs(r[0])
  {
    t[LeadingWs(t)..]
  }

  lemma WordBeforeShift(a: CharTable, t: string, w: nat, pos: nat)
    requires w <= pos <= |t|
    requires w > 0 ==> !a.isAlpha(t[w - 1])
    ensures WordBefore(a, t[w..], pos - w) == WordBefore(a, t, pos)
  {
    var s := WordStart(a, t, pos);
    assert t[w..][s - w..pos - w] == t[s..pos];
  }

  /** Verdicts do not depend on whitespace before the text. */
  lemma VerdictShift(a: Chars, t: string, w: nat, pos: nat)
    requires w <= LeadingWs(t) && w <= pos < |t|
    ensures IsTerminator(a, t[w..], pos - w) == IsTerminator(a, t, pos)
  {
    assert t[w..][pos - w] == t[pos];
    assert w > 0 ==> IsWs(t[w - 1]);
    WordBeforeShift(a, t, w, pos);
  }

  lemma {:induction false} FirstTerminatorShiftFrom(a: Chars, t: string, w: nat, i: nat)
    requires w <= LeadingWs(t) && w <= i <= |t|
    ensures FirstTerminator(a, t[w..], i - w, |t| - w) == FirstTerminator(a, t, i, |t|) - w
    decreases |t| - i
  {
    if i < |t| {
      VerdictShift(a, t, w, i);
      FirstTerminatorShiftFrom(a, t, w, i + 1);
    }
  }

  lemma FirstTerminatorShift(a: Chars, t: string, w: nat)
    requires w <= LeadingWs(t)
    ensures FirstTerminator(a, t[w..], 0, |t| - w) == FirstTerminator(a, t, 0, |t|) - w
  {
    FirstTerminatorShiftFrom(a, t, w, w);
  }

}
