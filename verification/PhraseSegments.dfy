/** What PhraseAccumulator emits, as functions of its buffer and limits. */
module PhraseSegments {
  import opened Common
  import opened PhraseText

  datatype Limits = Limits(softMax: nat, phraseMax: nat, retainedMax: nat) {
    predicate Valid() {
      1 <= softMax <= phraseMax <= retainedMax
    }
  }

  /** The mutable fields of the accumulator. */
  datatype Acc = Acc(buffer: string, flushed: bool, emittedAny: bool)

  const FRESH: Acc := Acc("", false, false)

  datatype Parsed = Parsed(phrases: seq<string>, rest: string, emittedAny: bool)

  // ------------------------------------------------------------------ one cut

  /** End of a phrase whose terminator is at `i`: closing quotes and brackets belong to it. */
  function CloseEnd(t: string, i: nat): (j: nat)
    requires i < |t|
    ensures i < j <= |t|
  {
    SkipWhile(IsCloser, t, i + 1)
  }

  /** One past the last whitespace of t[..n], or 0. */
  function LastWsEnd(t: string, n: nat): (e: nat)
    requires n <= |t|
    ensures e <= n
    ensures e > 0 ==> IsWs(t[e - 1])
    ensures forall k :: e <= k < n ==> !IsWs(t[k])
  {
    if n == 0 then 0 else if IsWs(t[n - 1]) then n else LastWsEnd(t, n - 1)
  }

  /** Where an overlong buffer without a boundary is cut. */
  function FallbackEnd(lim: Limits, t: string): (e: nat)
    requires lim.Valid() && |t| > lim.phraseMax
    ensures 0 < e <= lim.phraseMax
  {
    if LastWsEnd(t, lim.softMax) > 0 then LastWsEnd(t, lim.softMax)
    else if LastWsEnd(t, lim.phraseMax) > 0 then LastWsEnd(t, lim.phraseMax)
    else lim.phraseMax
  }

  /** One pass of the extraction loop. */
  datatype Turn = Take(phrase: string, next: string) | Skip(next: string) | Stop

  function TakeUnlessBlank(a: CharTable, phrase: string, next: string): Turn {
    if Blank(a, phrase) then Skip(next) else Take(phrase, next)
  }

  function ScanEnd(lim: Limits, t: string): (n: nat)
    ensures n <= |t| && n <= lim.phraseMax
  {
    if |t| < lim.phraseMax then |t| else lim.phraseMax
  }

  function NextTurn(a: CharTable, lim: Limits, t: string, emittedAny: bool): (r: Turn)
    requires lim.Valid()
    ensures !r.Stop? ==> |r.next| < |t|
  {
    var i := FirstTerminator(a, t, 0, ScanEnd(lim, t));
    if i < ScanEnd(lim, t) then
      Take(t[..CloseEnd(t, i)], t[SkipWhile(IsWs, t, CloseEnd(t, i))..])
    else if |t| > lim.phraseMax then
      TakeUnlessBlank(a, t[..FallbackEnd(lim, t)], t[SkipWhile(IsWs, t, FallbackEnd(lim, t))..])
    else if emittedAny && t != "" && IsWs(t[0]) then
      Skip(DropWs(t))
    else
      Stop
  }

  /** All phrases the extraction loop takes out of buffer `t`, and what it retains. */
  function Extract(a: CharTable, lim: Limits, t: string, emittedAny: bool): Parsed
    requires lim.Valid()
    decreases |t|
  {
    match NextTurn(a, lim, t, emittedAny)
    case Take(phrase, next) =>
      var r := Extract(a, lim, next, true);
      Parsed([phrase] + r.phrases, r.rest, r.emittedAny)
    case Skip(next) => Extract(a, lim, next, emittedAny)
    case Stop => Parsed([], t, emittedAny)
  }

  /** The loop that would shrink a buffer longer than `retainedMax`. */
  function Enforce(a: CharTable, lim: Limits, t: string, emittedAny: bool): Parsed
    requires lim.Valid()
    decreases |t|
  {
    if |t| <= lim.retainedMax then Parsed([], t, emittedAny)
    else
      var e := LastWsEnd(t, lim.phraseMax);
      var f := if e > 0 then e else lim.phraseMax;
      var next := t[SkipWhile(IsWs, t, f)..];
      if Blank(a, t[..f]) then Enforce(a, lim, next, emittedAny)
      else
        var r := Enforce(a, lim, next, true);
        Parsed([t[..f]] + r.phrases, r.rest, r.emittedAny)
  }

  // ------------------------------------------------------------- accumulator steps

  function Feed(a: CharTable, lim: Limits, s: Acc, chunk: string): (r: (Acc, seq<string>))
    requires lim.Valid()
  {
    if chunk == "" then (s, [])
    else
      var p := Extract(a, lim, s.buffer + chunk, s.emittedAny);
      (Acc(p.rest, false, p.emittedAny), p.phrases)
  }

  function Flush(a: CharTable, s: Acc): (r: (Acc, Option<string>)) {
    if s.flushed then (s, None)
    else (Acc("", true, s.emittedAny), if Blank(a, s.buffer) then None else Some(s.buffer))
  }

  function OptionSeq(o: Option<string>): seq<string> {
    if o.None? then [] else [o.value]
  }

  function FeedAll(a: CharTable, lim: Limits, s: Acc, chunks: seq<string>): (r: (Acc, seq<string>))
    requires lim.Valid()
    decreases |chunks|
  {
    if chunks == [] then (s, [])
    else
      var (s1, out1) := Feed(a, lim, s, chunks[0]);
      var (s2, out2) := FeedAll(a, lim, s1, chunks[1..]);
      (s2, out1 + out2)
  }

  /** Everything a fresh accumulator emits for `chunks` followed by flush. */
  function Phrases(a: CharTable, lim: Limits, chunks: seq<string>): seq<string>
    requires lim.Valid()
  {
    var (s, out) := FeedAll(a, lim, FRESH, chunks);
    out + OptionSeq(Flush(a, s).1)
  }

  // --------------------------------------------------------------- bounds

  predicate ClosersFrom(p: string, n: nat) {
    forall k :: n <= k < |p| ==> IsCloser(p[k])
  }

  /** At most `max` characters before a trailing run of closers. */
  predicate ShortPhrase(max: nat, p: string) {
    exists n: nat :: n <= |p| && n <= max && ClosersFrom(p, n)
  }

  /** Every pass shrinks the buffer, and what it takes is a non-empty prefix of bounded length. */
  lemma TurnBounds(a: CharTable, lim: Limits, t: string, emittedAny: bool)
    requires lim.Valid()
    ensures var r := NextTurn(a, lim, t, emittedAny);
      && (!r.Stop? ==> |r.next| < |t|)
      && (r.Take? ==> r.phrase != "" && r.phrase <= t && ShortPhrase(lim.phraseMax, r.phrase))
      && (r.Stop? ==>
          && |t| <= lim.phraseMax
          && FirstTerminator(a, t, 0, |t|) == |t|
          && (emittedAny && t != "" ==> !IsWs(t[0])))
  {
    var i := FirstTerminator(a, t, 0, ScanEnd(lim, t));
    if i < ScanEnd(lim, t) {
      assert ClosersFrom(t[..CloseEnd(t, i)], i + 1);
    } else if |t| > lim.phraseMax {
      var p := t[..FallbackEnd(lim, t)];
      assert ClosersFrom(p, |p|);
    }
  }

  /**
   * After extraction the buffer is at most `phraseMax` long, holds no
   * confirmed boundary and, once something was emitted, does not begin with
   * whitespace; every phrase is bounded.
   */
  lemma {:induction false} ExtractBounds(a: CharTable, lim: Limits, t: string, emittedAny: bool)
    requires lim.Valid()
    ensures var r := Extract(a, lim, t, emittedAny);
      && |r.rest| <= lim.phraseMax
      && FirstTerminator(a, r.rest, 0, |r.rest|) == |r.rest|
      && (r.emittedAny && r.rest != "" ==> !IsWs(r.rest[0]))
      && (r.emittedAny <==> emittedAny || r.phrases != [])
      && forall p :: p in r.phrases ==> p != "" && ShortPhrase(lim.phraseMax, p)
    decreases |t|
  {
    TurnBounds(a, lim, t, emittedAny);
    match NextTurn(a, lim, t, emittedAny)
    case Take(phrase, next) => ExtractBounds(a, lim, next, true);
    case Skip(next) => ExtractBounds(a, lim, next, emittedAny);
    case Stop =>
  }

  /** Hence the `retainedMax` loop never finds anything to do. */
  lemma RetainedLoopIdle(a: CharTable, lim: Limits, t: string, emittedAny: bool)
    requires lim.Valid()
    ensures var r := Extract(a, lim, t, emittedAny);
      Enforce(a, lim, r.rest, r.emittedAny) == Parsed([], r.rest, r.emittedAny)
  {
    ExtractBounds(a, lim, t, emittedAny);
  }

  // --------------------------------------------------------------- conservation

  /** The text with whitespace deleted. */
  function Ink(a: CharTable, t: string): string {
    if t == "" then "" else (if a.isSpace(t[0]) then "" else [t[0]]) + Ink(a, t[1..])
  }

  lemma {:induction false} InkAppend(a: CharTable, t: string, u: string)
    ensures Ink(a, t + u) == Ink(a, t) + Ink(a, u)
  {
    if t == "" {
      assert t + u == u;
    } else {
      assert (t + u)[1..] == t[1..] + u;
      InkAppend(a, t[1..], u);
    }
  }

  lemma {:induction false} InkBlank(a: CharTable, t: string)
    requires Blank(a, t)
    ensures Ink(a, t) == ""
  {
    if t != "" {
      InkBlank(a, t[1..]);
    }
  }

  lemma InkSkipWs(a: Chars, t: string, j: nat)
    requires j <= |t|
    ensures Ink(a, t) == Ink(a, t[..j]) + Ink(a, t[SkipWhile(IsWs, t, j)..])
  {
    var k := SkipWhile(IsWs, t, j);
    assert t == t[..j] + (t[j..k] + t[k..]);
    InkAppend(a, t[..j], t[j..k] + t[k..]);
    InkAppend(a, t[j..k], t[k..]);
    InkBlank(a, t[j..k]);
  }

  lemma InkFlattenAppend(a: CharTable, p: seq<string>, q: seq<string>)
    ensures Ink(a, Flatten(p + q)) == Ink(a, Flatten(p)) + Ink(a, Flatten(q))
  {
    FlattenAppend(p, q);
    InkAppend(a, Flatten(p), Flatten(q));
  }

  lemma TurnConserves(a: Chars, lim: Limits, t: string, emittedAny: bool)
    requires lim.Valid()
    ensures var r := NextTurn(a, lim, t, emittedAny);
      && (r.Take? ==> Ink(a, t) == Ink(a, r.phrase) + Ink(a, r.next))
      && (r.Skip? ==> Ink(a, t) == Ink(a, r.next))
  {
    var i := FirstTerminator(a, t, 0, ScanEnd(lim, t));
    if i < ScanEnd(lim, t) {
      InkSkipWs(a, t, CloseEnd(t, i));
    } else if |t| > lim.phraseMax {
      InkSkipWs(a, t, FallbackEnd(lim, t));
      if Blank(a, t[..FallbackEnd(lim, t)]) {
        InkBlank(a, t[..FallbackEnd(lim, t)]);
      }
    } else {
      InkSkipWs(a, t, 0);
      assert t[..0] == "";
    }
  }

  /** No character other than whitespace is lost, duplicated or reordered by extraction. */
  lemma {:induction false} ExtractConserves(a: Chars, lim: Limits, t: string, emittedAny: bool)
    requires lim.Valid()
    ensures var r := Extract(a, lim, t, emittedAny);
      Ink(a, Flatten(r.phrases)) + Ink(a, r.rest) == Ink(a, t)
    decreases |t|
  {
    TurnConserves(a, lim, t, emittedAny);
    match NextTurn(a, lim, t, emittedAny)
    case Take(phrase, next) =>
      ExtractConserves(a, lim, next, true);
      var more := Extract(a, lim, next, true);
      InkFlattenAppend(a, [phrase], more.phrases);
      FlattenOne(phrase);
      AppendAssoc(Ink(a, phrase), Ink(a, Flatten(more.phrases)), Ink(a, more.rest));
    case Skip(next) => ExtractConserves(a, lim, next, emittedAny);
    case Stop =>
  }

  /** What the enforcement loop would do: shrink to the limit, in phrases that show something, and lose no text. */
  lemma {:induction false} EnforceBounds(a: Chars, lim: Limits, t: string, emittedAny: bool)
    requires lim.Valid()
    ensures var r := Enforce(a, lim, t, emittedAny);
      && |r.rest| <= lim.retainedMax
      && (|t| <= lim.retainedMax ==> r.rest == t && r.phrases == [])
      && (r.emittedAny <==> emittedAny || r.phrases != [])
      && Ink(a, Flatten(r.phrases)) + Ink(a, r.rest) == Ink(a, t)
      && forall p :: p in r.phrases ==> 0 < |p| <= lim.phraseMax && !Blank(a, p)
    decreases |t|
  {
    if |t| > lim.retainedMax {
      var e := LastWsEnd(t, lim.phraseMax);
      var f := if e > 0 then e else lim.phraseMax;
      var next := t[SkipWhile(IsWs, t, f)..];
      InkSkipWs(a, t, f);
      if Blank(a, t[..f]) {
        InkBlank(a, t[..f]);
        EnforceBounds(a, lim, next, emittedAny);
      } else {
        EnforceBounds(a, lim, next, true);
        var more := Enforce(a, lim, next, true);
        InkFlattenAppend(a, [t[..f]], more.phrases);
        FlattenOne(t[..f]);
        AppendAssoc(Ink(a, t[..f]), Ink(a, Flatten(more.phrases)), Ink(a, more.rest));
      }
    }
  }

  /** A call on the accumulator. */
  datatype Call = FeedCall(chunk: string) | FlushCall

  function Step(a: CharTable, lim: Limits, s: Acc, call: Call): (r: (Acc, seq<string>))
    requires lim.Valid()
  {
    match call
    case FeedCall(chunk) => Feed(a, lim, s, chunk)
    case FlushCall => (Flush(a, s).0, OptionSeq(Flush(a, s).1))
  }

  function RunCalls(a: CharTable, lim: Limits, s: Acc, calls: seq<Call>): (r: (Acc, seq<string>))
    requires lim.Valid()
    decreases |calls|
  {
    if calls == [] then (s, [])
    else
      var (s1, out1) := Step(a, lim, s, calls[0]);
      var (s2, out2) := RunCalls(a, lim, s1, calls[1..]);
      (s2, out1 + out2)
  }

  function TextOf(call: Call): string {
    if call.FeedCall? then call.chunk else ""
  }

  /** The text handed over by `calls`, in order. */
  function Fed(calls: seq<Call>): string {
    if calls == [] then "" else TextOf(calls[0]) + Fed(calls[1..])
  }

  /** A flushed accumulator holds nothing back. */
  predicate Settled(s: Acc) {
    s.flushed ==> s.buffer == ""
  }

  lemma StepConserves(a: Chars, lim: Limits, s: Acc, call: Call)
    requires lim.Valid() && Settled(s)
    ensures var (s', out) := Step(a, lim, s, call);
      && Settled(s')
      && Ink(a, Flatten(out)) + Ink(a, s'.buffer) == Ink(a, s.buffer) + Ink(a, TextOf(call))
  {
    match call
    case FeedCall(chunk) =>
      if chunk != "" {
        ExtractConserves(a, lim, s.buffer + chunk, s.emittedAny);
        InkAppend(a, s.buffer, chunk);
      }
    case FlushCall =>
      if Blank(a, s.buffer) {
        InkBlank(a, s.buffer);
      } else {
        assert Flatten([s.buffer]) == s.buffer;
      }
  }

  /** Text conservation over every sequence of feeds and flushes. */
  lemma {:induction false} TextConserved(a: Chars, lim: Limits, s: Acc, calls: seq<Call>)
    requires lim.Valid() && Settled(s)
    ensures var (s', out) := RunCalls(a, lim, s, calls);
      && Settled(s')
      && Ink(a, Flatten(out)) + Ink(a, s'.buffer) == Ink(a, s.buffer) + Ink(a, Fed(calls))
    decreases |calls|
  {
    if calls != [] {
      var (s1, out1) := Step(a, lim, s, calls[0]);
      var (s2, out2) := RunCalls(a, lim, s1, calls[1..]);
      StepConserves(a, lim, s, calls[0]);
      TextConserved(a, lim, s1, calls[1..]);
      InkFlattenAppend(a, out1, out2);
      InkAppend(a, TextOf(calls[0]), Fed(calls[1..]));
      Regroup(
        Ink(a, Flatten(out1)), Ink(a, Flatten(out2)), Ink(a, s2.buffer),
        Ink(a, s1.buffer), Ink(a, Fed(calls[1..])), Ink(a, s.buffer), Ink(a, TextOf(calls[0])));
    }
  }

  lemma Regroup(o1: string, o2: string, b2: string, b1: string, f2: string, b0: string, f1: string)
    requires o1 + b1 == b0 + f1
    requires o2 + b2 == b1 + f2
    ensures (o1 + o2) + b2 == b0 + (f1 + f2)
  {
    assert (o1 + o2) + b2 == o1 + (o2 + b2);
    assert o1 + (b1 + f2) == (o1 + b1) + f2;
    assert (b0 + f1) + f2 == b0 + (f1 + f2);
  }
}
