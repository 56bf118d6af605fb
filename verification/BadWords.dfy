/**
 Suppressing bad words while tokens are generated: a filter on one step at a time that keeps
 every generated sequence free of bad words.
 */
module BadWords {
  import opened Wrappers

  /** A logit that is finite or minus infinity. */
  datatype Logit = NegInf | Finite(value: real)

  type Word = seq<int>

  function Plus(a: Logit, b: Logit): Logit {
    if a.NegInf? || b.NegInf? then NegInf else Finite(a.value + b.value)
  }

  lemma AddBias(a: Logit, block: bool)
    ensures Plus(a, if block then NegInf else Finite(0.0)) == if block then NegInf else a
  {
  }

  /** `InvalidToken` is the ValueError of the bounds check, `EmptyWord` the IndexError on an empty bad word. */
  datatype Result = InvalidToken | EmptyWord | Ok(logits: seq<Logit>)

  // ----- what the filter is for -----

  predicate EndsWith(h: seq<int>, w: Word) {
    |w| <= |h| && h[|h| - |w|..] == w
  }

  /** Generating `t` now would complete a bad word. */
  ghost predicate Blocks(words: seq<Word>, past: seq<int>, t: int) {
    exists i :: 0 <= i < |words| && words[i] != [] && EndsWith(past + [t], words[i])
  }

  predicate OccursAt(w: Word, h: seq<int>, i: nat) {
    i + |w| <= |h| && h[i..i + |w|] == w
  }

  ghost predicate Clean(words: seq<Word>, h: seq<int>) {
    forall j, i: nat :: 0 <= j < |words| && words[j] != [] ==> !OccursAt(words[j], h, i)
  }

  /** A sequence the sampler can produce when it never picks a token whose logit is minus infinity. */
  ghost predicate CanBeGenerated(words: seq<Word>, h: seq<int>) {
    forall k :: 0 <= k < |h| ==> !Blocks(words, h[..k], h[k])
  }

  lemma EndsHere(w: Word, h: seq<int>, k: nat)
    requires k < |h| && w != []
    ensures EndsWith(h[..k] + [h[k]], w) <==> k + 1 >= |w| && OccursAt(w, h, k + 1 - |w|)
  {
    assert h[..k] + [h[k]] == h[..k + 1];
    if k + 1 >= |w| {
      assert h[..k + 1][k + 1 - |w|..] == h[k + 1 - |w|..k + 1];
    }
  }

  /** The per-step filter is exact for whole sequences: it lets through the clean ones and no others. */
  lemma GeneratedIffClean(words: seq<Word>, h: seq<int>)
    ensures CanBeGenerated(words, h) <==> Clean(words, h)
  {
    if CanBeGenerated(words, h) {
      forall j, i: nat | 0 <= j < |words| && words[j] != []
        ensures !OccursAt(words[j], h, i)
      {
        var k := i + |words[j]| - 1;
        if k < |h| {
          EndsHere(words[j], h, k);
          assert !Blocks(words, h[..k], h[k]);
        }
      }
    }
    if Clean(words, h) {
      forall k | 0 <= k < |h|
        ensures !Blocks(words, h[..k], h[k])
      {
        forall j | 0 <= j < |words| && words[j] != []
          ensures !EndsWith(h[..k] + [h[k]], words[j])
        {
          EndsHere(words[j], h, k);
        }
      }
    }
  }

  // ----- the processor -----

  ghost predicate InBounds(words: seq<Word>, vocab: nat) {
    forall i, j :: 0 <= i < |words| && 0 <= j < |words[i]| ==> 0 <= words[i][j] < vocab
  }

  /** The part of `Blocks` that the cached bias covers. */
  ghost predicate BlockedAlone(words: seq<Word>, n: nat, t: int)
    requires n <= |words|
  {
    exists i :: 0 <= i < n && words[i] == [t]
  }

  /** The part of `Blocks` that depends on the past. */
  ghost predicate BlockedByPast(words: seq<Word>, n: nat, past: seq<int>, t: int)
    requires n <= |words|
  {
    exists i :: 0 <= i < n && |words[i]| > 1 && EndsWith(past + [t], words[i])
  }

  lemma BlocksSplits(words: seq<Word>, past: seq<int>, t: int)
    ensures Blocks(words, past, t) <==>
      BlockedAlone(words, |words|, t) || BlockedByPast(words, |words|, past, t)
  {
    var h := past + [t];
    assert h[|h| - 1..] == [t];
    forall i | 0 <= i < |words| && words[i] != []
      ensures EndsWith(h, words[i]) <==> words[i] == [t] || (|words[i]| > 1 && EndsWith(h, words[i]))
    {
    }
  }

  /** Comparing the prefix with the end of the past is comparing the whole word with the extended past. */
  lemma PrefixMatch(past: seq<int>, w: Word, t: int)
    requires 1 < |w| <= |past| + 1
    ensures EndsWith(past + [t], w) <==>
      past[|past| - (|w| - 1)..] == w[..|w| - 1] && w[|w| - 1] == t
  {
    var p := |w| - 1;
    var h := past + [t];
    assert h[|h| - |w|..] == past[|past| - p..] + [t];
    assert w == w[..p] + [w[p]];
    if past[|past| - p..] + [t] == w {
      assert past[|past| - p..] == (past[|past| - p..] + [t])[..p];
    }
  }

  ghost predicate IsBias(bias: seq<Logit>, blocked: int -> bool) {
    forall t :: 0 <= t < |bias| ==> bias[t] == if blocked(t) then NegInf else Finite(0.0)
  }

  ghost predicate IsPastBias(bias: seq<Logit>, words: seq<Word>, n: nat, past: seq<int>)
    requires n <= |words|
  {
    forall t :: 0 <= t < |bias| ==> bias[t] == if BlockedByPast(words, n, past, t) then NegInf else Finite(0.0)
  }

  lemma NoWords(words: seq<Word>, past: seq<int>, bias: seq<Logit>)
    requires forall t :: 0 <= t < |bias| ==> bias[t] == Finite(0.0)
    ensures IsPastBias(bias, words, 0, past)
  {
  }

  lemma OneMoreWord(words: seq<Word>, i: nat, past: seq<int>, t: int)
    requires i < |words|
    ensures BlockedByPast(words, i + 1, past, t) <==>
      BlockedByPast(words, i, past, t) || (|words[i]| > 1 && EndsWith(past + [t], words[i]))
  {
    hide EndsWith;
    if |words[i]| > 1 && EndsWith(past + [t], words[i]) { assert i < i + 1; }
  }

  lemma SkippedWord(words: seq<Word>, i: nat, past: seq<int>, bias: seq<Logit>)
    requires i < |words| && (|words[i]| == 1 || |words[i]| > |past| + 1) && IsPastBias(bias, words, i, past)
    ensures IsPastBias(bias, words, i + 1, past)
  {
    hide BlockedByPast;
    forall t | 0 <= t < |bias| ensures BlockedByPast(words, i + 1, past, t) == BlockedByPast(words, i, past, t) {
      OneMoreWord(words, i, past, t);
    }
  }

  predicate PrefixMatches(w: Word, past: seq<int>)
    requires 1 < |w| <= |past| + 1
  {
    past[|past| - (|w| - 1)..] == w[..|w| - 1]
  }

  lemma MatchedToken(words: seq<Word>, i: nat, past: seq<int>, t: int)
    requires i < |words| && 1 < |words[i]| <= |past| + 1
    ensures BlockedByPast(words, i + 1, past, t) <==>
      BlockedByPast(words, i, past, t) || (PrefixMatches(words[i], past) && t == words[i][|words[i]| - 1])
  {
    hide BlockedByPast, EndsWith;
    OneMoreWord(words, i, past, t);
    PrefixMatch(past, words[i], t);
  }

  lemma MatchedWord(words: seq<Word>, i: nat, past: seq<int>, bias: seq<Logit>)
    requires i < |words| && 1 < |words[i]| <= |past| + 1 && IsPastBias(bias, words, i, past)
    requires 0 <= words[i][|words[i]| - 1] < |bias|
    ensures var last := words[i][|words[i]| - 1];
      IsPastBias(bias[last := Plus(bias[last], if PrefixMatches(words[i], past) then NegInf else Finite(0.0))],
        words, i + 1, past)
  {
    hide BlockedByPast, PrefixMatches, Plus;
    var last, isMatch := words[i][|words[i]| - 1], PrefixMatches(words[i], past);
    AddBias(bias[last], isMatch);
    forall t | 0 <= t < |bias|
      ensures BlockedByPast(words, i + 1, past, t) <==> BlockedByPast(words, i, past, t) || (isMatch && t == last)
    {
      MatchedToken(words, i, past, t);
    }
  }

  class NoBadWordsLogitsProcessor {
    const badWords: seq<Word>
    var wordBias: Option<seq<Logit>>

    /** The cached bias, once there, was built for this vocabulary and these words. */
    ghost predicate Valid(vocab: nat)
      reads this
    {
      wordBias.Some? ==>
        && InBounds(badWords, vocab) && |wordBias.value| == vocab
        && IsBias(wordBias.value, t => BlockedAlone(badWords, |badWords|, t))
    }

    constructor (badWords: seq<Word>)
      ensures this.badWords == badWords && wordBias.None?
    {
      this.badWords := badWords;
      wordBias := None;
    }

    method CheckTokenIdsBounds(vocab: nat) returns (ok: bool)
      ensures ok <==> InBounds(badWords, vocab)
    {
      ok := true;
      for i := 0 to |badWords|
        invariant ok <==> InBounds(badWords[..i], vocab)
      {
        for j := 0 to |badWords[i]|
          invariant ok <==> InBounds(badWords[..i], vocab) && forall k :: 0 <= k < j ==> 0 <= badWords[i][k] < vocab
        {
          if badWords[i][j] < 0 || badWords[i][j] >= vocab {
            ok := false;
          }
        }
        assert badWords[..i + 1] == badWords[..i] + [badWords[i]];
      }
      assert badWords[..|badWords|] == badWords;
    }

    method InitWordBias(vocab: nat) returns (ok: bool)
      requires wordBias.None?
      modifies this
      ensures ok <==> InBounds(badWords, vocab)
      ensures Valid(vocab) && (wordBias.Some? <==> ok)
    {
      ok := CheckTokenIdsBounds(vocab);
      if !ok {
        return;
      }
      var bias: seq<Logit> := seq(vocab, _ => Finite(0.0));
      for i := 0 to |badWords|
        invariant |bias| == vocab && wordBias.None?
        invariant IsBias(bias, t => BlockedAlone(badWords, i, t))
      {
        if |badWords[i]| == 1 {
          var id := badWords[i][0];
          assert badWords[i] == [id];
          bias := bias[id := NegInf];
        }
      }
      wordBias := Some(bias);
    }

    /** The loop over multi-token words; `EmptyWord` stops it like the exception does. */
    method LastTokenBias(past: seq<int>, vocab: nat) returns (ok: bool, bias: seq<Logit>)
      requires InBounds(badWords, vocab)
      ensures ok <==> [] !in badWords
      ensures |bias| == vocab && (ok ==> IsPastBias(bias, badWords, |badWords|, past))
    {
      hide IsPastBias, EndsWith;
      bias := seq(vocab, _ => Finite(0.0));
      NoWords(badWords, past, bias);
      for i := 0 to |badWords|
        invariant |bias| == vocab && [] !in badWords[..i]
        invariant IsPastBias(bias, badWords, i, past)
      {
        var w := badWords[i];
        if |w| == 1 || |w| > |past| + 1 {
          SkippedWord(badWords, i, past, bias);
          continue;
        }
        if w == [] {
          return false, bias;
        }
        var p := |w| - 1;
        var last := w[p];
        var isMatch := past[|past| - p..] == w[..p];
        MatchedWord(badWords, i, past, bias);
        bias := bias[last := Plus(bias[last], if isMatch then NegInf else Finite(0.0))];
      }
      assert badWords[..|badWords|] == badWords;
      ok := true;
    }

    /**
     One call: a token becomes minus infinity iff appending it would complete a bad word, and
     every other logit is returned as it was.
     */
    method Call(past: seq<int>, logits: seq<Logit>) returns (r: Result)
      requires Valid(|logits|)
      modifies this
      ensures Valid(|logits|)
      ensures r.InvalidToken? <==> !InBounds(badWords, |logits|)
      ensures r.EmptyWord? <==> InBounds(badWords, |logits|) && [] in badWords
      ensures r.Ok? ==>
        && |r.logits| == |logits|
        && forall t :: 0 <= t < |logits| ==>
             r.logits[t] == if Blocks(badWords, past, t) then NegInf else logits[t]
    {
      if wordBias.None? {
        var ok := InitWordBias(|logits|);
        if !ok {
          return InvalidToken;
        }
      }
      var found, bias := LastTokenBias(past, |logits|);
      if !found {
        return EmptyWord;
      }
      var alone := wordBias.value;
      var out := seq(|logits|, t requires 0 <= t < |logits| && |alone| == |bias| == |logits| =>
        Plus(Plus(logits[t], alone[t]), bias[t]));
      forall t | 0 <= t < |logits|
        ensures out[t] == if Blocks(badWords, past, t) then NegInf else logits[t]
      {
        BlocksSplits(badWords, past, t);
      }
      r := Ok(out);
    }
  }

  /**
   A whole run from an empty history: whatever the logits are and whichever allowed token is
   picked at each step, no bad word appears anywhere.  The run ends early only on an error or
   when every token left would complete a bad word.
   */
  method Generate(words: seq<Word>, vocab: nat, steps: seq<seq<Logit>>) returns (h: seq<int>)
    requires forall i :: 0 <= i < |steps| ==> |steps[i]| == vocab
    ensures Clean(words, h)
    ensures |h| == |steps| || !InBounds(words, vocab) || [] in words
      || (|h| < |steps| && forall t :: 0 <= t < vocab ==> steps[|h|][t].NegInf? || Blocks(words, h, t))
  {
    hide Blocks, InBounds;
    var p := new NoBadWordsLogitsProcessor(words);
    h := [];
    for k := 0 to |steps|
      invariant fresh(p) && p.badWords == words && p.Valid(vocab)
      invariant CanBeGenerated(words, h) && |h| == k
    {
      var r := p.Call(h, steps[k]);
      if !r.Ok? || forall t :: 0 <= t < vocab ==> r.logits[t].NegInf? {
        break;
      }
      var t :| 0 <= t < vocab && !r.logits[t].NegInf?;
      StillGenerated(words, h, t);
      h := h + [t];
    }
    GeneratedIffClean(words, h);
  }

  lemma StillGenerated(words: seq<Word>, h: seq<int>, t: int)
    requires CanBeGenerated(words, h) && !Blocks(words, h, t)
    ensures CanBeGenerated(words, h + [t])
  {
    var g := h + [t];
    forall k | 0 <= k < |g|
      ensures !Blocks(words, g[..k], g[k])
    {
      assert g[..k] == if k < |h| then h[..k] else h;
    }
  }
}
