/**
 * What comes out, said in characters alone: where a phrase ends, where an
 * overlong text is cut, and which texts are kept together.
 */
module PhraseBoundaries {
  import opened Common
  import opened PhraseText
  import opened PhraseSegments
  import opened PhraseInvariance

  /** No phrase ends before `n`. */
  ghost predicate NoneEnds(a: CharTable, t: string, n: int) {
    forall p :: 0 <= p < n ==> !Ends(a, t, p)
  }

  lemma FirstTerminatorIs(a: CharTable, t: string, end: nat, p: nat)
    requires p <= end <= |t| && NoneEnds(a, t, p) && (p < end ==> Ends(a, t, p))
    ensures FirstTerminator(a, t, 0, end) == p
  {
    var i := FirstTerminator(a, t, 0, end);
    if i < p {
      TerminatorsAreEnds(a, t, i);
    } else if p < i {
      TerminatorsAreEnds(a, t, p);
    }
  }

  /** t[i..j] is the whole run of characters of `cs` that starts at `i`. */
  predicate RunOf(cs: string, t: string, i: int, j: int) {
    0 <= i <= j <= |t| && (forall k :: i <= k < j ==> t[k] in cs) && (j < |t| ==> t[j] !in cs)
  }

  lemma RunsAre(t: string, i: nat, j: nat)
    requires i <= |t|
    ensures RunOf(CLOSING, t, i, j) <==> j == SkipWhile(IsCloser, t, i)
    ensures RunOf(WHITE, t, i, j) <==> j == SkipWhile(IsWs, t, i)
  {
  }

  /**
   * The first phrase ends at `p`: it takes the closers t[p+1..e] with it, and
   * parsing goes on after the whitespace t[e..w].
   */
  lemma CutAtEnd(a: CharTable, lim: Limits, t: string, emittedAny: bool, p: nat, e: nat, w: nat)
    requires lim.Valid() && p < lim.phraseMax && NoneEnds(a, t, p) && Ends(a, t, p)
    requires RunOf(CLOSING, t, p + 1, e) && RunOf(WHITE, t, e, w)
    ensures var r, more := Extract(a, lim, t, emittedAny), Extract(a, lim, t[w..], true);
      r == Parsed([t[..e]] + more.phrases, more.rest, more.emittedAny)
  {
    FirstTerminatorIs(a, t, ScanEnd(lim, t), p);
    RunsAre(t, p + 1, e);
    RunsAre(t, e, w);
  }

  /** The last whitespace of t[..n] is at `e - 1`, or there is none and `e` is 0. */
  predicate LastWhite(t: string, n: int, e: int) {
    0 <= e <= n <= |t| && (e > 0 ==> t[e - 1] in WHITE) && forall k :: e <= k < n ==> t[k] !in WHITE
  }

  lemma {:induction false} LastWhiteIs(t: string, n: nat, e: nat)
    requires LastWhite(t, n, e)
    ensures LastWsEnd(t, n) == e
  {
    if n > e {
      LastWhiteIs(t, n - 1, e);
    }
  }

  /**
   * An overlong text is cut after the last whitespace within the soft limit,
   * else within the phrase limit, else at the phrase limit.
   */
  predicate FallbackAt(lim: Limits, t: string, e: int) {
    || (e > 0 && LastWhite(t, lim.softMax, e))
    || (LastWhite(t, lim.softMax, 0) && e > 0 && LastWhite(t, lim.phraseMax, e))
    || (LastWhite(t, lim.phraseMax, 0) && e == lim.phraseMax)
  }

  lemma FallbackIs(lim: Limits, t: string, e: nat)
    requires lim.Valid() && |t| > lim.phraseMax && FallbackAt(lim, t, e)
    ensures FallbackEnd(lim, t) == e
  {
    if e > 0 && LastWhite(t, lim.softMax, e) {
      LastWhiteIs(t, lim.softMax, e);
    } else if LastWhite(t, lim.softMax, 0) && e > 0 && LastWhite(t, lim.phraseMax, e) {
      LastWhiteIs(t, lim.softMax, 0);
      LastWhiteIs(t, lim.phraseMax, e);
    } else {
      assert LastWhite(t, lim.softMax, 0);
      LastWhiteIs(t, lim.softMax, 0);
      LastWhiteIs(t, lim.phraseMax, 0);
    }
  }

  /** Some character is not a space in Python's sense. */
  predicate Shows(a: CharTable, s: string) {
    exists k :: 0 <= k < |s| && !a.isSpace(s[k])
  }

  lemma CutAtFallback(a: CharTable, lim: Limits, t: string, emittedAny: bool, e: nat, w: nat)
    requires lim.Valid() && |t| > lim.phraseMax && NoneEnds(a, t, lim.phraseMax)
    requires FallbackAt(lim, t, e) && RunOf(WHITE, t, e, w)
    ensures e <= |t|
    ensures var r := Extract(a, lim, t, emittedAny);
      if Shows(a, t[..e]) then
        var more := Extract(a, lim, t[w..], true);
        r == Parsed([t[..e]] + more.phrases, more.rest, more.emittedAny)
      else r == Extract(a, lim, t[w..], emittedAny)
  {
    FirstTerminatorIs(a, t, lim.phraseMax, lim.phraseMax);
    FallbackIs(lim, t, e);
    RunsAre(t, e, w);
  }

  /** Anything shorter waits, without its leading whitespace once something was emitted. */
  lemma Waits(a: CharTable, lim: Limits, t: string, emittedAny: bool, w: nat)
    requires lim.Valid() && |t| <= lim.phraseMax && NoneEnds(a, t, |t|)
    requires RunOf(WHITE, t, 0, w) && NoneEnds(a, t[w..], |t| - w)
    ensures Extract(a, lim, t, emittedAny) == Parsed([], if emittedAny then t[w..] else t, emittedAny)
  {
    FirstTerminatorIs(a, t, |t|, |t|);
    FirstTerminatorIs(a, t[w..], |t| - w, |t| - w);
    RunsAre(t, 0, w);
    assert t[0..] == t;
  }

  // ------------------------------------------------------------ texts that are kept together

  lemma PrefixWaits(a: CharTable, lim: Limits, b: string, rest: string)
    requires lim.Valid() && |b + rest| <= lim.phraseMax && NoneEnds(a, b + rest, |b + rest|)
    ensures Extract(a, lim, b, false) == Parsed([], b, false)
  {
    FirstTerminatorIs(a, b + rest, |b + rest|, |b + rest|);
    if FirstTerminator(a, b, 0, |b|) < |b| {
      FirstTerminatorStable(a, b, rest);
    }
  }

  lemma {:induction false} FeedingWaits(a: CharTable, lim: Limits, b: string, chunks: seq<string>)
    requires lim.Valid() && |b + Flatten(chunks)| <= lim.phraseMax
    requires NoneEnds(a, b + Flatten(chunks), |b + Flatten(chunks)|)
    ensures FeedAll(a, lim, Acc(b, false, false), chunks) == (Acc(b + Flatten(chunks), false, false), [])
    decreases |chunks|
  {
    if chunks == [] {
      assert b + Flatten(chunks) == b;
    } else {
      var rest := Flatten(chunks[1..]);
      AppendAssoc(b, chunks[0], rest);
      PrefixWaits(a, lim, b + chunks[0], rest);
      assert chunks[0] == "" ==> b + chunks[0] == b;
      assert Feed(a, lim, Acc(b, false, false), chunks[0]) == (Acc(b + chunks[0], false, false), []);
      FeedingWaits(a, lim, b + chunks[0], chunks[1..]);
      assert b + Flatten(chunks) == (b + chunks[0]) + rest;
      var done := FeedAll(a, lim, Acc(b + chunks[0], false, false), chunks[1..]);
      AppendNone(done.1);
      assert FeedAll(a, lim, Acc(b, false, false), chunks) == (done.0, [] + done.1);
    }
  }

  /** A text within the limit in which no phrase ends comes out whole, however it was fed, unless it is blank. */
  lemma KeptWhole(a: CharTable, lim: Limits, chunks: seq<string>)
    requires lim.Valid() && |Flatten(chunks)| <= lim.phraseMax && NoneEnds(a, Flatten(chunks), |Flatten(chunks)|)
    ensures var t := Flatten(chunks);
      Phrases(a, lim, chunks) == if Shows(a, t) then [t] else []
  {
    var t := Flatten(chunks);
    assert "" + t == t;
    FeedingWaits(a, lim, "", chunks);
    AppendNone(OptionSeq(Flush(a, Acc(t, false, false)).1));
  }

  /**
   * Numbers, ellipses and titles are kept together: a text within the limit
   * without hard terminals, all of whose periods are directly between digits,
   * next to another period, or between a listed word and a letter, comes out
   * as one phrase, however it was fed.
   */
  lemma SparedPeriodsKept(a: CharTable, lim: Limits, chunks: seq<string>)
    requires lim.Valid() && |Flatten(chunks)| <= lim.phraseMax
    requires var t := Flatten(chunks);
      forall p :: 0 <= p < |t| ==> t[p] !in HARD && (t[p] == '.' ==> Spared(a, t, p))
    ensures var t := Flatten(chunks);
      Phrases(a, lim, chunks) == if Shows(a, t) then [t] else []
  {
    KeptWhole(a, lim, chunks);
  }
}
