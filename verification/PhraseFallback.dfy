/**
 * Beyond `Fits`: where boundaries are further apart than the limit, the
 * fallback cut shows how a text was split into `feed` calls.
 */
module PhraseFallback {
  import opened Common
  import opened PhraseText
  import opened PhraseSegments
  import opened PhraseInvariance

  /** The first boundary is a period that is undecided when the buffer first passes the limit. */
  predicate UndecidedAtLimit(a: CharTable, lim: Limits, t: string) {
    var i := FirstTerminator(a, t, 0, ScanEnd(lim, t));
    i < ScanEnd(lim, t) && t[i] == '.' && DecidedAt(t, i) > lim.phraseMax + 1
  }

  lemma LastWsEndPrefix(t: string, m: nat, n: nat)
    requires n <= m <= |t|
    ensures LastWsEnd(t[..m], n) == LastWsEnd(t, n)
  {
  }

  /** In the prefix that just passes the limit nothing is a boundary yet. */
  lemma NothingConfirmed(a: CharTable, lim: Limits, t: string, x: string)
    requires UndecidedAtLimit(a, lim, t) && lim.phraseMax < |t| && x == t[..lim.phraseMax + 1]
    ensures FirstTerminator(a, x, 0, lim.phraseMax) == lim.phraseMax
  {
    var i := FirstTerminator(a, t, 0, ScanEnd(lim, t));
    var y := t[lim.phraseMax + 1..];
    assert x + y == t && x[i] == t[i];
    SkipWhileAppend(IsGap, x, y, i + 1);
    forall k | 0 <= k < lim.phraseMax
      ensures !IsTerminator(a, x, k)
    {
      if k < i {
        NotYet(a, x, y, k);
      } else if k > i {
        UndecidedBlocks(a, x, i, k);
      }
    }
  }

  lemma NotYet(a: CharTable, x: string, y: string, k: nat)
    requires k < |x| && !IsTerminator(a, x + y, k)
    ensures !IsTerminator(a, x, k)
  {
    if x[k] != '.' || Resolvable(x, k) {
      VerdictStable(a, x, y, k);
    }
  }

  /** Fed up to just past the limit the text is cut at the fallback; whole, at the period. */
  lemma CutsOf(a: Chars, lim: Limits, t: string, x: string, i: nat)
    requires lim.Valid() && UndecidedAtLimit(a, lim, t) && !a.isSpace(t[0])
    requires |t| > lim.phraseMax + 1 && x == t[..lim.phraseMax + 1]
    requires i == FirstTerminator(a, t, 0, ScanEnd(lim, t))
    ensures var r, r' := NextTurn(a, lim, x, false), NextTurn(a, lim, t, false);
      r.Take? && r'.Take? && r.phrase == t[..FallbackEnd(lim, t)] && r'.phrase == t[..CloseEnd(t, i)]
  {
    NothingConfirmed(a, lim, t, x);
    LastWsEndPrefix(t, lim.phraseMax + 1, lim.softMax);
    LastWsEndPrefix(t, lim.phraseMax + 1, lim.phraseMax);
    var e := FallbackEnd(lim, t);
    assert x[..e] == t[..e];
    assert x[..e][0] == t[0];
  }

  lemma PrefixesDiffer(t: string, d: nat, e: nat)
    requires 0 < d <= |t| && 0 < e <= |t| && !IsWs(t[0])
    ensures DropWs(t[..d]) == DropWs(t[..e]) <==> d == e
  {
    assert t[..d][0] == t[0] && t[..e][0] == t[0];
    assert LeadingWs(t[..d]) == 0 && LeadingWs(t[..e]) == 0;
    assert |t[..d]| == d && |t[..e]| == e;
  }

  /** The `k`-th phrase, leading whitespace aside. */
  function PhraseAt(ps: seq<string>, k: nat): Option<string> {
    if k < |ps| then Some(DropWs(ps[k])) else None
  }

  lemma FirstPhrase(a: Chars, lim: Limits, t: string, more: seq<string>)
    requires lim.Valid() && t != "" && NextTurn(a, lim, t, false).Take?
    ensures PhraseAt(Phrases(a, lim, [t] + more), 0) == Some(DropWs(NextTurn(a, lim, t, false).phrase))
  {
    FirstFeedShows(a, lim, t, more);
    assert Extract(a, lim, t, false).phrases[0] == NextTurn(a, lim, t, false).phrase;
  }

  /**
   * A period whose deciding character lies beyond the limit: the first phrase
   * depends on the split just past the limit exactly when the fallback is not
   * the end of the phrase itself.
   */
  lemma UndecidedPeriodShows(a: Chars, lim: Limits, t: string, x: string, y: string)
    requires lim.Valid() && UndecidedAtLimit(a, lim, t) && !a.isSpace(t[0])
    requires |x| == lim.phraseMax + 1 && x + y == t
    ensures PhraseAt(Phrases(a, lim, [x, y]), 0) == PhraseAt(Phrases(a, lim, [t]), 0)
      <==> FallbackEnd(lim, t) == CloseEnd(t, FirstTerminator(a, t, 0, ScanEnd(lim, t)))
  {
    var i := FirstTerminator(a, t, 0, ScanEnd(lim, t));
    CutsOf(a, lim, t, x, i);
    assert [x] + [y] == [x, y] && [t] + [] == [t];
    FirstPhrase(a, lim, x, [y]);
    FirstPhrase(a, lim, t, []);
    PrefixesDiffer(t, FallbackEnd(lim, t), CloseEnd(t, i));
  }

  lemma TrimsAt(ps: seq<string>, qs: seq<string>, k: nat)
    requires Trims(ps) == Trims(qs)
    ensures PhraseAt(ps, k) == PhraseAt(qs, k)
  {
    assert |ps| == |Trims(ps)| && |qs| == |Trims(qs)|;
    assert k < |ps| ==> Trims(ps)[k] == DropWs(ps[k]) && Trims(qs)[k] == DropWs(qs[k]);
  }

  lemma VariesAt(a: Chars, lim: Limits, t: string, chunks: seq<string>, k: nat)
    requires lim.Valid() && Flatten(chunks) == t
    requires PhraseAt(Phrases(a, lim, chunks), k) != PhraseAt(Phrases(a, lim, [t]), k)
    ensures !Invariant(a, lim, t)
  {
    if Trims(Phrases(a, lim, chunks)) == Trims(Phrases(a, lim, [t])) {
      TrimsAt(Phrases(a, lim, chunks), Phrases(a, lim, [t]), k);
    }
  }

  lemma UndecidedIsVariant(a: Chars, lim: Limits, t: string)
    requires lim.Valid() && UndecidedAtLimit(a, lim, t) && !a.isSpace(t[0])
    requires FallbackEnd(lim, t) != CloseEnd(t, FirstTerminator(a, t, 0, ScanEnd(lim, t)))
    ensures !Invariant(a, lim, t)
  {
    var x, y := t[..lim.phraseMax + 1], t[lim.phraseMax + 1..];
    UndecidedPeriodShows(a, lim, t, x, y);
    FlattenTwo(x, y);
    VariesAt(a, lim, t, [x, y], 0);
  }

  /** Shown: a text without any closer whose phrases vary. */
  lemma UndecidedPeriodWitness(a: Chars)
    requires !a.isSpace('a')
    ensures NoCloserAfterHard("a . c") && !Invariant(a, Limits(3, 3, 3), "a . c")
  {
    var t, lim := "a . c", Limits(3, 3, 3);
    assert t[1] == ' ' && IsWs(t[1]) && !a.isAlpha(t[1]);
    assert SkipWhile(IsGap, t, 3) == 4;
    assert WordStart(a, t, 2) == 2;
    assert IsTerminator(a, t, 2);
    assert !IsTerminator(a, t, 0) && !IsTerminator(a, t, 1);
    assert FirstTerminator(a, t, 0, 3) == 2;
    assert CloseEnd(t, 2) == 3 && LastWsEnd(t, 3) == 2;
    UndecidedIsVariant(a, lim, t);
  }

  lemma TwoFeeds(a: Chars, lim: Limits, x: string, y: string, chunks: seq<string>)
    requires lim.Valid() && chunks == [x, y]
    ensures var (s1, out1) := Feed(a, lim, FRESH, x);
      out1 + Feed(a, lim, s1, y).1 <= Phrases(a, lim, chunks)
  {
    var (s1, out1) := Feed(a, lim, FRESH, x);
    assert chunks[1..] == [y] && [y][1..] == [];
    AppendNone(Feed(a, lim, s1, y).1);
    assert FeedAll(a, lim, s1, [y]).1 == Feed(a, lim, s1, y).1;
  }

  lemma HardAlone(a: Chars, lim: Limits)
    requires lim.Valid()
    ensures Feed(a, lim, FRESH, "!") == (Acc("", false, true), ["!"])
  {
    assert FRESH.buffer + "!" == "!" + "" && DropWs("") == "";
    AlongHard(a, lim, "");
    AppendNone(["!"]);
    assert Extract(a, lim, "", true) == Parsed([], "", true);
  }

  /** After a hard terminal: what arrives with it loses its leading whitespace, what arrives later keeps it. */
  lemma AfterHard(a: Chars, lim: Limits, y: string)
    requires lim.Valid() && y != "" && !IsCloser(y[0])
    ensures ["!"] + Extract(a, lim, y, true).phrases <= Phrases(a, lim, ["!", y])
    ensures ["!"] + Extract(a, lim, DropWs(y), true).phrases <= Phrases(a, lim, ["!" + y])
  {
    AlongHard(a, lim, y);
    FirstFeedShows(a, lim, "!" + y, []);
    AppendNone(["!" + y]);
    HardAlone(a, lim);
    assert "" + y == y;
    TwoFeeds(a, lim, "!", y, ["!", y]);
  }

  lemma AlongHard(a: Chars, lim: Limits, y: string)
    requires lim.Valid() && (y != "" ==> !IsCloser(y[0]))
    ensures Extract(a, lim, "!" + y, false).phrases == ["!"] + Extract(a, lim, DropWs(y), true).phrases
    ensures Extract(a, lim, "!" + y, false).rest == Extract(a, lim, DropWs(y), true).rest
    ensures Extract(a, lim, "!" + y, false).emittedAny
  {
    var t := "!" + y;
    assert IsTerminator(a, t, 0);
    assert y != "" ==> t[1] == y[0];
    assert CloseEnd(t, 0) == 1;
    SkipWhileAppend(IsWs, "!", y, 1);
    assert t[1 + LeadingWs(y)..] == DropWs(y);
    assert NextTurn(a, lim, t, false) == Take("!", DropWs(y));
    ExtractBounds(a, lim, t, false);
  }

  lemma FallbackPhrase(a: Chars, lim: Limits, u: string)
    requires lim.Valid() && |u| > lim.phraseMax && !Blank(a, u[..FallbackEnd(lim, u)])
    requires forall k :: 0 <= k < lim.phraseMax ==> !IsTerminal(u[k])
    ensures [u[..FallbackEnd(lim, u)]] <= Extract(a, lim, u, true).phrases
  {
    assert FirstTerminator(a, u, 0, lim.phraseMax) == lim.phraseMax;
  }

  /** Where leading whitespace changes the first phrase taken, a split right before it shows. */
  lemma ShiftShows(a: Chars, lim: Limits, y: string, p: string, q: string)
    requires lim.Valid() && y != "" && !IsCloser(y[0])
    requires [p] <= Extract(a, lim, y, true).phrases && [q] <= Extract(a, lim, DropWs(y), true).phrases
    requires DropWs(p) != DropWs(q)
    ensures !Invariant(a, lim, "!" + y)
  {
    AfterHard(a, lim, y);
    SecondOf(Phrases(a, lim, ["!", y]), Extract(a, lim, y, true).phrases, p);
    SecondOf(Phrases(a, lim, ["!" + y]), Extract(a, lim, DropWs(y), true).phrases, q);
    FlattenTwo("!", y);
    VariesAt(a, lim, "!" + y, ["!", y], 1);
  }

  lemma SecondOf(ps: seq<string>, more: seq<string>, p: string)
    requires ["!"] + more <= ps && [p] <= more
    ensures PhraseAt(ps, 1) == Some(DropWs(p))
  {
    assert ps[1] == (["!"] + more)[1] == more[0] == p;
  }

  /** Shown: whitespace that arrives after its cut is still in the buffer when the fallback is chosen. */
  lemma ShiftedFallbackWitness(a: Chars)
    requires !a.isSpace('c')
    ensures NoCloserAfterHard("! c d ef") && !Invariant(a, Limits(4, 4, 4), "! c d ef")
  {
    var lim := Limits(4, 4, 4);
    var y, z := " c d ef", "c d ef";
    FallbackOf(a, lim, y, 3);
    FallbackOf(a, lim, z, 4);
    Shifted(y, z);
    ShiftShows(a, lim, y, y[..3], z[..4]);
  }

  lemma Shifted(y: string, z: string)
    requires y == " c d ef" && z == "c d ef"
    ensures "!" + y == "! c d ef" && NoCloserAfterHard("!" + y)
    ensures DropWs(y) == z && DropWs(y[..3]) != DropWs(z[..4])
  {
    LeadingWsIs(y, 1);
    LeadingWsIs(y[..3], 1);
    LeadingWsIs(z[..4], 0);
    assert |DropWs(y[..3])| == 2 && |DropWs(z[..4])| == 4;
  }

  lemma FallbackOf(a: Chars, lim: Limits, u: string, e: nat)
    requires lim == Limits(4, 4, 4) && !a.isSpace('c')
    requires (u == " c d ef" && e == 3) || (u == "c d ef" && e == 4)
    ensures [u[..e]] <= Extract(a, lim, u, true).phrases
  {
    assert LastWsEnd(u, 4) == e;
    assert u[..e][if e == 3 then 1 else 0] == 'c';
    FallbackPhrase(a, lim, u);
  }
}
