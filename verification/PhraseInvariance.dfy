/**
 * Incremental parsing against whole-text parsing: how a text is split into
 * `feed` calls does not change the phrases, and exactly when it does.
 */
module PhraseInvariance {
  import opened Common
  import opened PhraseText
  import opened PhraseSegments

  /** The phrases of a whole text, without limits and without leading whitespace. */
  function Canon(a: CharTable, t: string): seq<string>
    decreases |t|
  {
    var i := FirstTerminator(a, t, 0, |t|);
    if i < |t| then [DropWs(t[..CloseEnd(t, i)])] + Canon(a, t[CloseEnd(t, i)..])
    else if Blank(a, t) then []
    else [DropWs(t)]
  }

  function Trims(phrases: seq<string>): (r: seq<string>)
    ensures |r| == |phrases|
    ensures forall k :: 0 <= k < |r| ==> r[k] == DropWs(phrases[k])
  {
    if phrases == [] then [] else [DropWs(phrases[0])] + Trims(phrases[1..])
  }

  lemma TrimsAppend(p: seq<string>, q: seq<string>)
    ensures Trims(p + q) == Trims(p) + Trims(q)
  {
  }

  /** One past the character that settles the boundary at `i`. */
  function DecidedAt(t: string, i: nat): nat
    requires i < |t|
  {
    if t[i] == '.' then SkipWhile(IsGap, t, i + 1) + 1 else i + 1
  }

  /** Between two boundaries there are at most `max` characters, lookahead included. */
  predicate Fits(a: CharTable, max: nat, t: string)
    decreases |t|
  {
    var i := FirstTerminator(a, t, 0, |t|);
    if i < |t| then DecidedAt(t, i) <= max && Fits(a, max, t[CloseEnd(t, i)..])
    else |t| <= max
  }

  /** No closing quote or bracket directly follows a terminal other than the period. */
  predicate NoCloserAfterHard(t: string) {
    forall p :: 0 <= p < |t| - 1 && IsHard(t[p]) ==> !IsCloser(t[p + 1])
  }

  /** A text no longer than the limit always fits. */
  lemma {:induction false} ShortTextFits(a: CharTable, max: nat, t: string)
    requires |t| <= max
    ensures Fits(a, max, t)
    decreases |t|
  {
    var i := FirstTerminator(a, t, 0, |t|);
    if i < |t| {
      ShortTextFits(a, max, t[CloseEnd(t, i)..]);
    }
  }

  // ------------------------------------------------ whitespace before the text is immaterial

  lemma LeadingWsIs(x: string, n: nat)
    requires n < |x| && !IsWs(x[n]) && forall k :: 0 <= k < n ==> IsWs(x[k])
    ensures LeadingWs(x) == n
  {
  }

  lemma Slices(t: string, w: nat, n: nat, j: nat)
    requires w <= n <= j <= |t|
    ensures t[w..][..j - w][n - w..] == t[n..j] == t[..j][n..]
  {
  }

  lemma DropWsPrefix(t: string, w: nat, j: nat)
    requires w <= LeadingWs(t) < j <= |t|
    ensures DropWs(t[w..][..j - w]) == DropWs(t[..j])
  {
    var n := LeadingWs(t);
    LeadingWsIs(t[..j], n);
    LeadingWsIs(t[w..][..j - w], n - w);
    Slices(t, w, n, j);
  }

  lemma DropWsSome(a: Chars, t: string, w: nat)
    requires w <= LeadingWs(t)
    ensures DropWs(t[w..]) == DropWs(t)
    ensures Blank(a, t[w..]) == Blank(a, t)
  {
    assert SkipWhile(IsWs, t, w) == LeadingWs(t);
    assert t[w..][LeadingWs(t) - w..] == t[LeadingWs(t)..];
    if Blank(a, t[w..]) {
      forall k | 0 <= k < |t|
        ensures a.isSpace(t[k])
      {
        assert k >= w ==> t[w..][k - w] == t[k];
        assert k < w ==> IsWs(t[k]);
      }
    }
  }

  lemma CutShift(a: Chars, t: string, w: nat)
    requires w <= LeadingWs(t)
    ensures var i, i' := FirstTerminator(a, t, 0, |t|), FirstTerminator(a, t[w..], 0, |t| - w);
      && i' == i - w
      && (i < |t| ==>
          && LeadingWs(t) <= i
          && CloseEnd(t[w..], i') == CloseEnd(t, i) - w
          && DecidedAt(t[w..], i') == DecidedAt(t, i) - w
          && t[w..][CloseEnd(t[w..], i')..] == t[CloseEnd(t, i)..])
  {
    FirstTerminatorShift(a, t, w);
    var i := FirstTerminator(a, t, 0, |t|);
    if i < |t| {
      assert !IsWs(t[i]);
      assert t[w..][i - w] == t[i];
    }
  }

  lemma CanonByCut(a: CharTable, t: string, d: string, j: nat, j': nat)
    requires FirstTerminator(a, t, 0, |t|) < |t| && j == CloseEnd(t, FirstTerminator(a, t, 0, |t|))
    requires FirstTerminator(a, d, 0, |d|) < |d| && j' == CloseEnd(d, FirstTerminator(a, d, 0, |d|))
    requires t[j..] == d[j'..] && DropWs(t[..j]) == DropWs(d[..j'])
    ensures Canon(a, t) == Canon(a, d)
  {
  }

  lemma CanonByTail(a: CharTable, t: string, d: string)
    requires FirstTerminator(a, t, 0, |t|) == |t| && FirstTerminator(a, d, 0, |d|) == |d|
    requires Blank(a, t) == Blank(a, d) && DropWs(t) == DropWs(d)
    ensures Canon(a, t) == Canon(a, d)
  {
  }

  lemma CanonDropsWs(a: Chars, t: string, w: nat)
    requires w <= LeadingWs(t)
    ensures Canon(a, t[w..]) == Canon(a, t)
  {
    CutShift(a, t, w);
    var i := FirstTerminator(a, t, 0, |t|);
    if i < |t| {
      var j := CloseEnd(t, i);
      DropWsPrefix(t, w, j);
      CanonByCut(a, t, t[w..], j, j - w);
    } else {
      DropWsSome(a, t, w);
      CanonByTail(a, t, t[w..]);
    }
  }

  lemma FitsByCut(a: CharTable, max: nat, t: string, d: string, i: nat, i': nat)
    requires i == FirstTerminator(a, t, 0, |t|) < |t| && i' == FirstTerminator(a, d, 0, |d|) < |d|
    requires DecidedAt(d, i') <= DecidedAt(t, i) && t[CloseEnd(t, i)..] == d[CloseEnd(d, i')..]
    requires Fits(a, max, t)
    ensures Fits(a, max, d)
  {
  }

  lemma FitsByTail(a: CharTable, max: nat, t: string, d: string)
    requires FirstTerminator(a, t, 0, |t|) == |t| && FirstTerminator(a, d, 0, |d|) == |d| <= |t|
    requires Fits(a, max, t)
    ensures Fits(a, max, d)
  {
  }

  lemma FitsDropsWs(a: Chars, max: nat, t: string, w: nat)
    requires w <= LeadingWs(t) && Fits(a, max, t)
    ensures Fits(a, max, t[w..])
  {
    CutShift(a, t, w);
    var i := FirstTerminator(a, t, 0, |t|);
    if i < |t| {
      FitsByCut(a, max, t, t[w..], i, i - w);
    } else {
      FitsByTail(a, max, t, t[w..]);
    }
  }

  // --------------------------------------------------------- one turn of the loop

  /** The cut the loop makes in `b` is the cut it would make with the rest of the text present. */
  lemma CutStable(a: CharTable, b: string, rest: string)
    requires NoCloserAfterHard(b + rest)
    requires FirstTerminator(a, b, 0, |b|) < |b|
    ensures var i := FirstTerminator(a, b, 0, |b|);
      FirstTerminator(a, b + rest, 0, |b + rest|) == i && CloseEnd(b + rest, i) == CloseEnd(b, i)
  {
    var i := FirstTerminator(a, b, 0, |b|);
    FirstTerminatorStable(a, b, rest);
    assert (b + rest)[i] == b[i];
    if IsHard(b[i]) {
      NoCloserTaken(b + rest, i);
      assert i + 1 < |b| ==> (b + rest)[i + 1] == b[i + 1];
    } else {
      SkipWhileAppend(IsCloser, b, rest, i + 1);
    }
  }

  lemma NoCloserTaken(t: string, i: nat)
    requires NoCloserAfterHard(t) && i < |t| && IsHard(t[i])
    ensures CloseEnd(t, i) == i + 1
    ensures i < |t| - 1 ==> !IsCloser(t[i + 1])
  {
  }

  /** A text that fits never forces a fallback cut. */
  lemma NoFallback(a: CharTable, lim: Limits, b: string, rest: string)
    requires lim.Valid() && Fits(a, lim.phraseMax, b + rest)
    ensures FirstTerminator(a, b, 0, ScanEnd(lim, b)) == ScanEnd(lim, b) ==>
      |b| <= lim.phraseMax && FirstTerminator(a, b, 0, |b|) == |b|
  {
    var i := FirstTerminator(a, b + rest, 0, |b + rest|);
    if |b| > lim.phraseMax {
      assert i < |b + rest| && DecidedAt(b + rest, i) <= |b|;
      assert (b + rest)[i] == b[i];
      SkipWhileAppend(IsGap, b, rest, i + 1);
      FirstTerminatorSeen(a, b, rest);
    }
  }

  predicate Regular(a: CharTable, max: nat, t: string) {
    Fits(a, max, t) && NoCloserAfterHard(t)
  }

  lemma HardSuffix(t: string, n: nat)
    requires n <= |t| && NoCloserAfterHard(t)
    ensures NoCloserAfterHard(t[n..])
  {
    forall p | 0 <= p < |t[n..]| - 1 && IsHard(t[n..][p])
      ensures !IsCloser(t[n..][p + 1])
    {
      assert t[n..][p] == t[n + p] && t[n..][p + 1] == t[n + p + 1];
    }
  }

  lemma DropJoined(b: string, rest: string, j: nat, k: nat)
    requires j <= k <= |b| && forall m :: j <= m < k ==> IsWs(b[m])
    ensures var x := (b + rest)[j..];
      k - j <= LeadingWs(x) && x[k - j..] == b[k..] + rest
  {
    var x := (b + rest)[j..];
    assert forall m :: 0 <= m < k - j ==> x[m] == b[j + m];
    LeadingWsAtLeast(x, k - j);
  }

  lemma RegularDropsWs(a: Chars, max: nat, t: string, w: nat, d: string)
    requires w <= LeadingWs(t) && Regular(a, max, t) && d == t[w..]
    ensures Regular(a, max, d) && Canon(a, d) == Canon(a, t)
  {
    CanonDropsWs(a, t, w);
    FitsDropsWs(a, max, t, w);
    HardSuffix(t, w);
  }

  lemma RegularSuffix(a: Chars, max: nat, b: string, rest: string, j: nat)
    requires j <= |b| && Regular(a, max, (b + rest)[j..])
    ensures var k := SkipWhile(IsWs, b, j);
      && Canon(a, b[k..] + rest) == Canon(a, (b + rest)[j..])
      && Regular(a, max, b[k..] + rest)
  {
    var k := SkipWhile(IsWs, b, j);
    DropJoined(b, rest, j, k);
    RegularDropsWs(a, max, (b + rest)[j..], k - j, b[k..] + rest);
  }

  lemma TurnCanon(a: Chars, lim: Limits, b: string, rest: string, emittedAny: bool)
    requires lim.Valid() && Regular(a, lim.phraseMax, b + rest)
    ensures var r := NextTurn(a, lim, b, emittedAny);
      && (r.Take? ==>
          && Canon(a, b + rest) == [DropWs(r.phrase)] + Canon(a, r.next + rest)
          && Regular(a, lim.phraseMax, r.next + rest))
      && (r.Skip? ==>
          && Canon(a, b + rest) == Canon(a, r.next + rest)
          && Regular(a, lim.phraseMax, r.next + rest))
  {
    var i := FirstTerminator(a, b, 0, ScanEnd(lim, b));
    NoFallback(a, lim, b, rest);
    if i < ScanEnd(lim, b) {
      CutStable(a, b, rest);
      var j := CloseEnd(b, i);
      assert (b + rest)[..j] == b[..j];
      HardSuffix(b + rest, j);
      RegularSuffix(a, lim.phraseMax, b, rest, j);
    } else {
      assert (b + rest)[0..] == b + rest;
      RegularSuffix(a, lim.phraseMax, b, rest, 0);
    }
  }

  lemma {:induction false} ExtractCanon(a: Chars, lim: Limits, b: string, rest: string, emittedAny: bool)
    requires lim.Valid() && Regular(a, lim.phraseMax, b + rest)
    ensures var r := Extract(a, lim, b, emittedAny);
      && Canon(a, b + rest) == Trims(r.phrases) + Canon(a, r.rest + rest)
      && Regular(a, lim.phraseMax, r.rest + rest)
    decreases |b|
  {
    TurnCanon(a, lim, b, rest, emittedAny);
    match NextTurn(a, lim, b, emittedAny)
    case Take(phrase, next) =>
      ExtractCanon(a, lim, next, rest, true);
      var more := Extract(a, lim, next, true).phrases;
      TrimsAppend([phrase], more);
    case Skip(next) => ExtractCanon(a, lim, next, rest, emittedAny);
    case Stop =>
  }

  // ----------------------------------------------------------- whole runs

  /** The states a feeding accumulator passes through. */
  predicate Parked(a: CharTable, s: Acc) {
    !s.flushed && FirstTerminator(a, s.buffer, 0, |s.buffer|) == |s.buffer|
  }

  lemma FeedCanon(a: Chars, lim: Limits, s: Acc, chunk: string, rest: string)
    requires lim.Valid() && Parked(a, s)
    requires Regular(a, lim.phraseMax, (s.buffer + chunk) + rest)
    ensures var (s', out) := Feed(a, lim, s, chunk);
      && Parked(a, s')
      && Canon(a, (s.buffer + chunk) + rest) == Trims(out) + Canon(a, s'.buffer + rest)
      && Regular(a, lim.phraseMax, s'.buffer + rest)
  {
    if chunk == "" {
      assert s.buffer + chunk == s.buffer;
    } else {
      ExtractCanon(a, lim, s.buffer + chunk, rest, s.emittedAny);
      ExtractBounds(a, lim, s.buffer + chunk, s.emittedAny);
    }
  }

  lemma {:induction false} FeedAllCanon(a: Chars, lim: Limits, s: Acc, chunks: seq<string>)
    requires lim.Valid() && Parked(a, s)
    requires Regular(a, lim.phraseMax, s.buffer + Flatten(chunks))
    ensures var (s', out) := FeedAll(a, lim, s, chunks);
      && Parked(a, s')
      && Canon(a, s.buffer + Flatten(chunks)) == Trims(out) + Canon(a, s'.buffer)
    decreases |chunks|
  {
    if chunks == [] {
      assert s.buffer + Flatten(chunks) == s.buffer;
    } else {
      var rest := Flatten(chunks[1..]);
      assert s.buffer + Flatten(chunks) == (s.buffer + chunks[0]) + rest;
      FeedCanon(a, lim, s, chunks[0], rest);
      var (s1, out1) := Feed(a, lim, s, chunks[0]);
      FeedAllCanon(a, lim, s1, chunks[1..]);
      TrimsAppend(out1, FeedAll(a, lim, s1, chunks[1..]).1);
    }
  }

  /**
   * Incremental parsing is whole-text parsing: for a regular text every
   * sequence of chunks followed by flush yields the canonical phrases.
   */
  lemma IncrementalIsWhole(a: Chars, lim: Limits, chunks: seq<string>)
    requires lim.Valid() && Regular(a, lim.phraseMax, Flatten(chunks))
    ensures Trims(Phrases(a, lim, chunks)) == Canon(a, Flatten(chunks))
  {
    assert FRESH.buffer + Flatten(chunks) == Flatten(chunks);
    FeedAllCanon(a, lim, FRESH, chunks);
    var (s, out) := FeedAll(a, lim, FRESH, chunks);
    TrimsAppend(out, OptionSeq(Flush(a, s).1));
  }

  // ------------------------------------------------------ the condition is exact

  /** `shorter` and `longer` agree up to their last common phrase, which `longer` extends. */
  predicate Overtakes(shorter: seq<string>, longer: seq<string>) {
    && 0 < |shorter| <= |longer|
    && shorter[..|shorter| - 1] == longer[..|shorter| - 1]
    && var p, q := shorter[|shorter| - 1], longer[|shorter| - 1];
       p <= q && |p| < |q| && EndsHard(p)
  }

  predicate EndsHard(x: string) {
    x != "" && IsHard(x[|x| - 1])
  }

  lemma LeadingWsAtLeast(x: string, n: nat)
    requires n <= |x| && forall m :: 0 <= m < n ==> IsWs(x[m])
    ensures n <= LeadingWs(x)
  {
  }

  lemma FitsAfterCut(a: Chars, max: nat, t: string, j: nat, k: nat)
    requires j <= k <= |t| && forall m :: j <= m < k ==> IsWs(t[m])
    requires Fits(a, max, t[j..])
    ensures Fits(a, max, t[k..])
  {
    WsSuffix(t, j, k);
    FitsSuffix(a, max, t[j..], k - j, t[k..]);
  }

  lemma FitsSuffix(a: Chars, max: nat, x: string, w: nat, d: string)
    requires w <= LeadingWs(x) && Fits(a, max, x) && d == x[w..]
    ensures Fits(a, max, d)
  {
    FitsDropsWs(a, max, x, w);
  }

  lemma WsSuffix(t: string, j: nat, k: nat)
    requires j <= k <= |t| && forall m :: j <= m < k ==> IsWs(t[m])
    ensures k - j <= LeadingWs(t[j..]) && t[j..][k - j..] == t[k..]
  {
    assert forall m :: 0 <= m < k - j ==> t[j..][m] == t[j + m];
    LeadingWsAtLeast(t[j..], k - j);
  }

  lemma TakesFirstCut(a: CharTable, lim: Limits, t: string, emittedAny: bool, i: nat)
    requires lim.Valid() && i == FirstTerminator(a, t, 0, |t|) < |t| && DecidedAt(t, i) <= lim.phraseMax
    ensures NextTurn(a, lim, t, emittedAny)
         == Take(t[..CloseEnd(t, i)], t[SkipWhile(IsWs, t, CloseEnd(t, i))..])
  {
  }

  /** Both texts are cut at the same terminal. */
  lemma SameFirstCut(a: CharTable, lim: Limits, x: string, y: string, emittedAny: bool, i: nat)
    requires lim.Valid() && Fits(a, lim.phraseMax, x + y)
    requires i == FirstTerminator(a, x, 0, |x|) < |x|
    ensures i == FirstTerminator(a, x + y, 0, |x + y|)
    ensures NextTurn(a, lim, x, emittedAny)
         == Take(x[..CloseEnd(x, i)], x[SkipWhile(IsWs, x, CloseEnd(x, i))..])
    ensures NextTurn(a, lim, x + y, emittedAny)
         == Take((x + y)[..CloseEnd(x + y, i)], (x + y)[SkipWhile(IsWs, x + y, CloseEnd(x + y, i))..])
    ensures Fits(a, lim.phraseMax, (x + y)[CloseEnd(x + y, i)..])
  {
    FirstTerminatorStable(a, x, y);
    SkipWhileAppend(IsGap, x, y, i + 1);
    assert (x + y)[i] == x[i];
    TakesFirstCut(a, lim, x, emittedAny, i);
    TakesFirstCut(a, lim, x + y, emittedAny, i);
  }

  lemma CutEndsAgree(x: string, y: string, i: nat)
    requires EndsHard(x) && i < |x| - 1
    ensures var j := CloseEnd(x, i);
      && CloseEnd(x + y, i) == j < |x|
      && SkipWhile(IsWs, x + y, j) == SkipWhile(IsWs, x, j) < |x|
  {
    assert !IsCloser(x[|x| - 1]) && !IsWs(x[|x| - 1]);
    SkipWhileAppend(IsCloser, x, y, i + 1);
    SkipWhileAppend(IsWs, x, y, CloseEnd(x, i));
  }

  lemma EarlierCut(a: Chars, lim: Limits, x: string, y: string, emittedAny: bool, i: nat)
    requires lim.Valid() && Fits(a, lim.phraseMax, x + y)
    requires EndsHard(x)
    requires i == FirstTerminator(a, x, 0, |x|) < |x| - 1
    ensures var r, r' := NextTurn(a, lim, x, emittedAny), NextTurn(a, lim, x + y, emittedAny);
      && r.Take? && r' == Take(r.phrase, r.next + y)
      && EndsHard(r.next) && Fits(a, lim.phraseMax, r.next + y)
  {
    SameFirstCut(a, lim, x, y, emittedAny, i);
    CutEndsAgree(x, y, i);
    var j := CloseEnd(x, i);
    var k := SkipWhile(IsWs, x, j);
    CutJoined(a, lim.phraseMax, x, y, j, k);
    assert (x + y)[..j] == x[..j];
    EndsHardSuffix(x, k);
  }

  lemma EndsHardSuffix(x: string, k: nat)
    requires EndsHard(x) && k < |x|
    ensures EndsHard(x[k..])
  {
  }

  lemma LastCut(a: CharTable, lim: Limits, x: string, y: string, emittedAny: bool)
    requires lim.Valid() && Fits(a, lim.phraseMax, x + y)
    requires EndsHard(x) && y != "" && IsCloser(y[0])
    requires FirstTerminator(a, x, 0, |x|) == |x| - 1
    ensures var r, r' := NextTurn(a, lim, x, emittedAny), NextTurn(a, lim, x + y, emittedAny);
      && r == Take(x, "") && r'.Take? && x <= r'.phrase && |x| < |r'.phrase|
  {
    SameFirstCut(a, lim, x, y, emittedAny, |x| - 1);
    SkipWhileAppend(IsCloser, x, y, |x|);
    assert x[..|x|] == x && x <= (x + y)[..CloseEnd(x + y, |x| - 1)];
  }

  lemma CutJoined(a: Chars, max: nat, x: string, y: string, j: nat, k: nat)
    requires j <= k <= |x| && forall m :: j <= m < k ==> IsWs(x[m])
    requires Fits(a, max, (x + y)[j..])
    ensures (x + y)[k..] == x[k..] + y && Fits(a, max, x[k..] + y)
  {
    FitsAfterCut(a, max, x + y, j, k);
    assert (x + y)[k..] == x[k..] + y;
  }

  /** A closer that arrives with its terminal joins the phrase; one that arrives later cannot. */
  lemma {:induction false} LateCloser(a: Chars, lim: Limits, x: string, y: string, emittedAny: bool)
    requires lim.Valid() && Fits(a, lim.phraseMax, x + y)
    requires EndsHard(x) && y != "" && IsCloser(y[0])
    ensures Overtakes(Extract(a, lim, x, emittedAny).phrases, Extract(a, lim, x + y, emittedAny).phrases)
    decreases |x|
  {
    assert IsTerminator(a, x, |x| - 1);
    var i := FirstTerminator(a, x, 0, |x|);
    var r, r' := NextTurn(a, lim, x, emittedAny), NextTurn(a, lim, x + y, emittedAny);
    if i < |x| - 1 {
      EarlierCut(a, lim, x, y, emittedAny, i);
      LateCloser(a, lim, r.next, y, true);
      OvertakesCons(r.phrase, Extract(a, lim, r.next, true).phrases, Extract(a, lim, r'.next, true).phrases);
    } else {
      LastCut(a, lim, x, y, emittedAny);
      assert Extract(a, lim, "", true).phrases == [];
      assert Extract(a, lim, x, emittedAny).phrases == [x];
      assert Extract(a, lim, x + y, emittedAny).phrases[..0] == [];
    }
  }

  lemma OvertakesCons(p: string, shorter: seq<string>, longer: seq<string>)
    requires Overtakes(shorter, longer)
    ensures Overtakes([p] + shorter, [p] + longer)
  {
    assert ([p] + shorter)[..|shorter|] == [p] + shorter[..|shorter| - 1];
    assert ([p] + longer)[..|shorter|] == [p] + longer[..|shorter| - 1];
  }

  lemma OvertakenDiffers(p: string, q: string)
    requires p <= q && |p| < |q| && EndsHard(p)
    ensures DropWs(p) != DropWs(q)
  {
    assert !IsWs(p[|p| - 1]);
    assert LeadingWs(p) == LeadingWs(q);
  }

  /** What the first feed emits are the first phrases. */
  lemma FirstFeedShows(a: Chars, lim: Limits, x: string, more: seq<string>)
    requires lim.Valid() && x != ""
    ensures Extract(a, lim, x, false).phrases <= Phrases(a, lim, [x] + more)
  {
    assert FRESH.buffer + x == x;
    var (s1, out1) := Feed(a, lim, FRESH, x);
    assert ([x] + more)[1..] == more;
    assert FeedAll(a, lim, FRESH, [x] + more).1 == out1 + FeedAll(a, lim, s1, more).1;
  }

  /** A closer right after a hard terminal always exposes the split between the two. */
  lemma SplitAtHardDiffers(a: Chars, lim: Limits, t: string, p: nat)
    requires lim.Valid() && Fits(a, lim.phraseMax, t)
    requires p < |t| - 1 && IsHard(t[p]) && IsCloser(t[p + 1])
    ensures Flatten([t[..p + 1], t[p + 1..]]) == t
    ensures Trims(Phrases(a, lim, [t[..p + 1], t[p + 1..]])) != Trims(Phrases(a, lim, [t]))
  {
    var x, y := t[..p + 1], t[p + 1..];
    assert t == x + y;
    assert [x, y] == [x] + [y] && [t] == [t] + [];
    FirstFeedShows(a, lim, x, [y]);
    FirstFeedShows(a, lim, t, []);
    LateCloser(a, lim, x, y, false);
    var shorter, longer := Extract(a, lim, x, false).phrases, Extract(a, lim, t, false).phrases;
    var m := |shorter| - 1;
    OvertakenDiffers(shorter[m], longer[m]);
    FlattenTwo(x, y);
  }

  ghost predicate Invariant(a: CharTable, lim: Limits, t: string)
    requires lim.Valid()
  {
    forall chunks :: Flatten(chunks) == t ==> Trims(Phrases(a, lim, chunks)) == Trims(Phrases(a, lim, [t]))
  }

  lemma RegularIsInvariant(a: Chars, lim: Limits, t: string)
    requires lim.Valid() && Regular(a, lim.phraseMax, t)
    ensures Invariant(a, lim, t)
  {
    FlattenOne(t);
    IncrementalIsWhole(a, lim, [t]);
    forall chunks | Flatten(chunks) == t
      ensures Trims(Phrases(a, lim, chunks)) == Trims(Phrases(a, lim, [t]))
    {
      IncrementalIsWhole(a, lim, chunks);
    }
  }

  lemma IrregularIsVariant(a: Chars, lim: Limits, t: string)
    requires lim.Valid() && Fits(a, lim.phraseMax, t) && !NoCloserAfterHard(t)
    ensures !Invariant(a, lim, t)
  {
    var p :| 0 <= p < |t| - 1 && IsHard(t[p]) && IsCloser(t[p + 1]);
    SplitAtHardDiffers(a, lim, t, p);
    VariantBy(a, lim, t, [t[..p + 1], t[p + 1..]]);
  }

  lemma VariantBy(a: CharTable, lim: Limits, t: string, chunks: seq<string>)
    requires lim.Valid() && Flatten(chunks) == t
    requires Trims(Phrases(a, lim, chunks)) != Trims(Phrases(a, lim, [t]))
    ensures !Invariant(a, lim, t)
  {
  }

  /** Exactly when the phrases do not depend on how a fitting text is split into feeds. */
  lemma ChunkingInvariance(a: Chars, lim: Limits, t: string)
    requires lim.Valid() && Fits(a, lim.phraseMax, t)
    ensures NoCloserAfterHard(t) <==> Invariant(a, lim, t)
  {
    if NoCloserAfterHard(t) {
      RegularIsInvariant(a, lim, t);
    } else {
      IrregularIsVariant(a, lim, t);
    }
  }
}
