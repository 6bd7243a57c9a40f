/** The streaming phrase parser object of app/speech/phrases.py. */
module PhraseAccumulator {
  import opened Common
  import opened PhraseText
  import opened PhraseSegments

  /** The remaining work `r`, after `done`, is all of `whole`. */
  ghost predicate Resumes(whole: Parsed, done: seq<string>, r: Parsed) {
    whole == Parsed(done + r.phrases, r.rest, r.emittedAny)
  }

  lemma Continues(whole: Parsed, done: seq<string>, phrase: string, r: Parsed)
    requires Resumes(whole, done, Parsed([phrase] + r.phrases, r.rest, r.emittedAny))
    ensures Resumes(whole, done + [phrase], r)
  {
    assert done + ([phrase] + r.phrases) == (done + [phrase]) + r.phrases;
  }

  lemma EnforceNext(a: CharTable, lim: Limits, t: string, emittedAny: bool, f: nat, j: nat)
    requires lim.Valid() && |t| > lim.retainedMax
    requires f == (if LastWsEnd(t, lim.phraseMax) > 0 then LastWsEnd(t, lim.phraseMax) else lim.phraseMax)
    requires j == SkipWhile(IsWs, t, f)
    ensures Enforce(a, lim, t, emittedAny) ==
      if Blank(a, t[..f]) then Enforce(a, lim, t[j..], emittedAny)
      else
        var r := Enforce(a, lim, t[j..], true);
        Parsed([t[..f]] + r.phrases, r.rest, r.emittedAny)
  {
  }

  class PhraseAccumulator {
    const chars: Chars
    const limits: Limits
    var buffer: string
    var flushed: bool
    var emittedAny: bool

    ghost predicate Valid()
      reads this
    {
      limits.Valid() && Settled(View())
    }

    ghost function View(): Acc
      reads this
    {
      Acc(buffer, flushed, emittedAny)
    }

    constructor (chars: Chars, limits: Limits)
      requires limits.Valid()
      ensures Valid() && View() == FRESH && this.chars == chars && this.limits == limits
    {
      this.chars, this.limits := chars, limits;
      buffer, flushed, emittedAny := "", false, false;
    }

    /** The ValueError of impossible limits is null. */
    static method Create(chars: Chars, softMax: int, phraseMax: int, retainedMax: int) returns (p: PhraseAccumulator?)
      ensures p != null <==> 1 <= softMax <= phraseMax <= retainedMax
      ensures p != null ==>
        && fresh(p) && p.Valid() && p.View() == FRESH
        && p.chars == chars && p.limits == Limits(softMax, phraseMax, retainedMax)
    {
      if phraseMax < softMax || retainedMax < phraseMax {
        return null;
      }
      if softMax < 1 || phraseMax < 1 || retainedMax < 1 {
        return null;
      }
      p := new PhraseAccumulator(chars, Limits(softMax, phraseMax, retainedMax));
    }

    method FeedChunk(chunk: string) returns (phrases: seq<string>)
      requires Valid()
      modifies this
      ensures Valid()
      ensures (View(), phrases) == Feed(chars, limits, old(View()), chunk)
      ensures chunk != "" ==> |buffer| <= limits.phraseMax
      ensures forall p :: p in phrases ==> ShortPhrase(limits.phraseMax, p)
    {
      if chunk == "" {
        return [];
      }
      buffer := buffer + chunk;
      flushed := false;
      ghost var fed := buffer;
      phrases := ExtractPhrases();
      ExtractBounds(chars, limits, fed, old(emittedAny));
    }

    method ExtractPhrases() returns (phrases: seq<string>)
      requires limits.Valid()
      modifies this`buffer, this`emittedAny
      ensures Parsed(phrases, buffer, emittedAny) == Extract(chars, limits, old(buffer), old(emittedAny))
    {
      phrases := [];
      var buf := buffer;
      ghost var whole := Extract(chars, limits, buf, emittedAny);
      while true
        invariant Resumes(whole, phrases, Extract(chars, limits, buf, emittedAny))
        decreases |buf|
      {
        var turn := OnePass(buf);
        match turn {
          case Take(phrase, next) =>
            Continues(whole, phrases, phrase, Extract(chars, limits, next, true));
            phrases := phrases + [phrase];
            emittedAny := true;
            buf := next;
          case Skip(next) =>
            buf := next;
          case Stop =>
            break;
        }
      }
      RetainedLoopIdle(chars, limits, old(buffer), old(emittedAny));
      var enforced := EnforceRetained(buf);
      phrases := phrases + enforced;
    }

    /** What one pass of the loop does with `buf`. */
    method OnePass(buf: string) returns (turn: Turn)
      requires limits.Valid()
      ensures turn == NextTurn(chars, limits, buf, emittedAny)
    {
      if |buf| == 0 {
        return Stop;
      }
      var boundary := FindBoundary(buf, ScanEnd(limits, buf));
      if boundary > 0 {
        var j := boundary;
        while j < |buf| && IsCloser(buf[j])
          invariant boundary <= j <= |buf|
          invariant SkipWhile(IsCloser, buf, boundary) == SkipWhile(IsCloser, buf, j)
        {
          j := j + 1;
        }
        var k := SkipWhitespace(buf, j);
        return Take(buf[..j], buf[k..]);
      }
      if |buf| > limits.phraseMax {
        var fallback := FallbackCut(buf);
        var j := SkipWhitespace(buf, fallback);
        if !Blank(chars, buf[..fallback]) {
          return Take(buf[..fallback], buf[j..]);
        }
        return Skip(buf[j..]);
      }
      if emittedAny && IsWs(buf[0]) {
        var j := SkipWhitespace(buf, 0);
        return Skip(buf[j..]);
      }
      return Stop;
    }

    /** One past the first confirmed boundary of buf[..scanEnd], or 0. */
    method FindBoundary(buf: string, scanEnd: nat) returns (boundary: nat)
      requires scanEnd <= |buf|
      ensures var i := FirstTerminator(chars, buf, 0, scanEnd);
        boundary == if i < scanEnd then i + 1 else 0
    {
      for i := 0 to scanEnd
        invariant FirstTerminator(chars, buf, 0, scanEnd) == FirstTerminator(chars, buf, i, scanEnd)
      {
        var confirmed := ConfirmTerminator(chars, buf, i);
        if confirmed {
          return i + 1;
        }
      }
      return 0;
    }

    method SkipWhitespace(buf: string, from: nat) returns (j: nat)
      requires from <= |buf|
      ensures j == SkipWhile(IsWs, buf, from)
    {
      j := from;
      while j < |buf| && IsWs(buf[j])
        invariant from <= j <= |buf|
        invariant SkipWhile(IsWs, buf, from) == SkipWhile(IsWs, buf, j)
      {
        j := j + 1;
      }
    }

    /** One past the last whitespace of buf[..limit], or 0. */
    method LastWhitespace(buf: string, limit: nat) returns (e: nat)
      requires limit <= |buf|
      ensures e == LastWsEnd(buf, limit)
    {
      var i := limit - 1;
      while i >= 0
        invariant -1 <= i < limit || i == limit - 1
        invariant LastWsEnd(buf, limit) == LastWsEnd(buf, i + 1)
      {
        if IsWs(buf[i]) {
          return i + 1;
        }
        i := i - 1;
      }
      return 0;
    }

    method FallbackCut(buf: string) returns (fallback: nat)
      requires limits.Valid() && |buf| > limits.phraseMax
      ensures fallback == FallbackEnd(limits, buf)
    {
      fallback := LastWhitespace(buf, limits.softMax);
      if fallback == 0 {
        fallback := LastWhitespace(buf, limits.phraseMax);
      }
      if fallback == 0 {
        fallback := limits.phraseMax;
      }
    }

    method EnforceRetained(start: string) returns (phrases: seq<string>)
      requires limits.Valid()
      modifies this`buffer, this`emittedAny
      ensures Parsed(phrases, buffer, emittedAny) == Enforce(chars, limits, start, old(emittedAny))
    {
      phrases := [];
      var buf := start;
      ghost var whole := Enforce(chars, limits, buf, emittedAny);
      while |buf| > limits.retainedMax
        invariant Resumes(whole, phrases, Enforce(chars, limits, buf, emittedAny))
        decreases |buf|
      {
        var fallback := LastWhitespace(buf, limits.phraseMax);
        if fallback == 0 {
          fallback := limits.phraseMax;
        }
        var phrase := buf[..fallback];
        var j := SkipWhitespace(buf, fallback);
        EnforceNext(chars, limits, buf, emittedAny, fallback, j);
        buf := buf[j..];
        if !Blank(chars, phrase) {
          Continues(whole, phrases, phrase, Enforce(chars, limits, buf, true));
          phrases := phrases + [phrase];
          emittedAny := true;
        }
      }
      buffer := buf;
    }

    method FlushResidual() returns (residual: Option<string>)
      requires Valid()
      modifies this
      ensures Valid()
      ensures (View(), residual) == Flush(chars, old(View()))
    {
      if flushed {
        return None;
      }
      flushed := true;
      if Blank(chars, buffer) {
        buffer := "";
        return None;
      }
      residual := Some(buffer);
      buffer := "";
    }
  }
}
