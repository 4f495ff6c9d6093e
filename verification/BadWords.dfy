/** The logits processor that keeps banned token sequences out of the output. */
module BadWords {

  /** A logit: minus infinity, or a finite number. */
  datatype Logit = NegInf | Fin(value: real)

  const NEUTRAL: Logit := Fin(0.0)

  function Plus(a: Logit, b: Logit): Logit {
    if a.Fin? && b.Fin? then Fin(a.value + b.value) else NegInf
  }

  datatype Result<T> = Ok(value: T) | ValueError | IndexError

  // ----- the specification

  predicate EndsWith(s: seq<int>, w: seq<int>) { |w| <= |s| && s[|s| - |w|..] == w }

  /** Token t would complete a banned word. */
  predicate Blocked(badWords: seq<seq<int>>, past: seq<int>, t: int) {
    exists w <- badWords :: w != [] && EndsWith(past + [t], w)
  }

  /** Every token that would complete a banned word is masked, and no other logit changes. */
  function Masked(badWords: seq<seq<int>>, past: seq<int>, logits: seq<Logit>): (r: seq<Logit>)
    ensures |r| == |logits|
  {
    seq(|logits|, t requires 0 <= t < |logits| => if Blocked(badWords, past, t) then NegInf else logits[t])
  }

  /** The same, taken apart: t is the last token of a banned word whose other tokens have just been produced. */
  predicate Completes(badWords: seq<seq<int>>, past: seq<int>, t: int) {
    exists w <- badWords :: 1 <= |w| <= |past| + 1 && t == w[|w| - 1] && past[|past| - (|w| - 1)..] == w[..|w| - 1]
  }

  lemma MaskedMeans(badWords: seq<seq<int>>, past: seq<int>, logits: seq<Logit>)
    ensures forall t :: 0 <= t < |logits| ==>
      Masked(badWords, past, logits)[t] == if Completes(badWords, past, t) then NegInf else logits[t]
  {
    forall t | 0 <= t < |logits|
      ensures Masked(badWords, past, logits)[t] == if Completes(badWords, past, t) then NegInf else logits[t]
    {
      BlockedMeans(badWords, past, t);
    }
  }

  lemma BlockedMeans(badWords: seq<seq<int>>, past: seq<int>, t: int)
    ensures Blocked(badWords, past, t) <==> Completes(badWords, past, t)
    ensures Completes(badWords, past, t) <==>
      exists w <- badWords :: 1 <= |w| <= |past| + 1 && (past + [t])[|past| + 1 - |w|..] == w
  {
    forall w | w in badWords && w != []
      ensures EndsWith(past + [t], w) <==>
        |w| <= |past| + 1 && t == w[|w| - 1] && past[|past| - (|w| - 1)..] == w[..|w| - 1]
    {
      if 1 == |w| {
        assert (past + [t])[|past|..] == [t] && past[|past|..] == w[..0];
      } else if |w| <= |past| + 1 {
        CompletedBy(w, past);
      }
    }
  }

  predicate InVocabulary(badWords: seq<seq<int>>, vocabSize: nat) {
    forall k :: 0 <= k < |badWords| ==> TokensIn(badWords[k], vocabSize)
  }

  predicate TokensIn(word: seq<int>, vocabSize: nat) { forall j :: 0 <= j < |word| ==> 0 <= word[j] < vocabSize }

  // ----- the processor

  class NoBadWordsLogitsProcessor {
    const badWords: seq<seq<int>>
    var wordBias: array?<Logit>

    constructor (badWords: seq<seq<int>>)
      ensures this.badWords == badWords && wordBias == null
    {
      this.badWords := badWords;
      wordBias := null;
    }

    /** Once set, the bias masks exactly the banned words of one token. */
    ghost predicate Valid()
      reads this, wordBias
    {
      wordBias != null ==>
        && InVocabulary(badWords, wordBias.Length)
        && forall t :: 0 <= t < wordBias.Length ==> wordBias[t] == (if [t] in badWords then NegInf else NEUTRAL)
    }

    method CheckTokenIdsBounds(vocabSize: nat) returns (ok: bool)
      ensures ok <==> InVocabulary(badWords, vocabSize)
    {
      ok := true;
      for k := 0 to |badWords|
        invariant ok <==> forall i :: 0 <= i < k ==> TokensIn(badWords[i], vocabSize)
      {
        var word := badWords[k];
        ghost var before := ok;
        for j := 0 to |word|
          invariant ok <==> before && TokensIn(word[..j], vocabSize)
        {
          if word[j] < 0 || word[j] >= vocabSize {
            ok := false;
          }
          assert word[..j + 1][j] == word[j] && word[..j + 1][..j] == word[..j];
          assert TokensIn(word[..j + 1], vocabSize) <==> TokensIn(word[..j], vocabSize) && 0 <= word[j] < vocabSize;
        }
        assert word[..|word|] == word;
      }
    }

    method InitWordBias(vocabSize: nat) returns (ok: bool)
      requires wordBias == null
      modifies this`wordBias
      ensures ok <==> InVocabulary(badWords, vocabSize)
      ensures if ok then wordBias != null && fresh(wordBias) && wordBias.Length == vocabSize && Valid()
              else wordBias == null
    {
      ok := CheckTokenIdsBounds(vocabSize);
      if !ok {
        return;
      }
      var bias := new Logit[vocabSize](_ => NEUTRAL);
      for k := 0 to |badWords|
        invariant forall t :: 0 <= t < vocabSize ==> bias[t] == if [t] in badWords[..k] then NegInf else NEUTRAL
      {
        var word := badWords[k];
        assert badWords[..k + 1] == badWords[..k] + [word];
        if |word| == 1 {
          assert TokensIn(word, vocabSize);
          assert word == [word[0]];
          bias[word[0]] := NegInf;
        }
      }
      assert badWords[..|badWords|] == badWords;
      wordBias := bias;
    }

    /** The bias for the words longer than one token, of those the ones whose other tokens have just been
        produced. An empty word has no last token. */
    method LastTokenBias(past: seq<int>, vocabSize: nat) returns (r: Result<seq<Logit>>)
      requires InVocabulary(badWords, vocabSize)
      ensures if [] in badWords then r == IndexError else r.Ok? && MasksLonger(badWords, past, vocabSize, r.value)
    {
      var lastTokenBias := new Logit[vocabSize](_ => NEUTRAL);
      for k := 0 to |badWords|
        invariant [] !in badWords[..k] && MasksLonger(badWords[..k], past, vocabSize, lastTokenBias[..])
      {
        var word := badWords[k];
        ghost var before := lastTokenBias[..];
        assert badWords[..k + 1] == badWords[..k] + [word];
        if |word| == 1 || |word| > |past| + 1 {
          OneMoreWord(badWords[..k], word, past, vocabSize, before);
          continue;
        }
        if word == [] {
          return IndexError;
        }
        var prefixLength, lastTokenId := |word| - 1, word[|word| - 1];
        assert TokensIn(word, vocabSize);
        var isMatch := past[|past| - prefixLength..] == word[..prefixLength];
        lastTokenBias[lastTokenId] := Plus(lastTokenBias[lastTokenId], if isMatch then NegInf else NEUTRAL);
        OneMoreWord(badWords[..k], word, past, vocabSize, before);
      }
      assert badWords[..|badWords|] == badWords;
      r := Ok(lastTokenBias[..]);
    }

    /** The processor's call. The first call fixes the vocabulary size and may find banned tokens outside
        it. */
    method Call(past: seq<int>, logits: seq<Logit>) returns (r: Result<seq<Logit>>)
      requires Valid() && (wordBias != null ==> wordBias.Length == |logits|)
      modifies this`wordBias
      ensures Valid() && (wordBias != null ==> wordBias.Length == |logits|)
      ensures r ==
        if !InVocabulary(badWords, |logits|) then ValueError
        else if [] in badWords then IndexError
        else Ok(Masked(badWords, past, logits))
      ensures r == ValueError <==>
        exists k, j :: 0 <= k < |badWords| && 0 <= j < |badWords[k]| && !(0 <= badWords[k][j] < |logits|)
      ensures r == IndexError ==> exists k :: 0 <= k < |badWords| && badWords[k] == []
      ensures r.Ok? ==>
        && |r.value| == |logits|
        && forall t :: 0 <= t < |logits| ==>
          r.value[t] == if Completes(badWords, past, t) then NegInf else logits[t]
    {
      MaskedMeans(badWords, past, logits);
      if wordBias == null {
        var ok := InitWordBias(|logits|);
        if !ok {
          return ValueError;
        }
      }
      var lastTokenBias := LastTokenBias(past, |logits|);
      if !lastTokenBias.Ok? {
        return IndexError;
      }
      r := Ok(Biased(logits, wordBias[..], lastTokenBias.value));
      BiasedIsMasked(badWords, past, logits, wordBias[..], lastTokenBias.value);
    }
  }

  /** logits + word_bias + last_token_bias */
  function Biased(logits: seq<Logit>, a: seq<Logit>, b: seq<Logit>): (r: seq<Logit>)
    requires |logits| == |a| == |b|
    ensures |r| == |logits|
  {
    seq(|logits|, t requires 0 <= t < |logits| => Plus(Plus(logits[t], a[t]), b[t]))
  }

  predicate BlockedByLonger(badWords: seq<seq<int>>, past: seq<int>, t: int) {
    exists w <- badWords :: |w| > 1 && EndsWith(past + [t], w)
  }

  ghost predicate MasksLonger(badWords: seq<seq<int>>, past: seq<int>, vocabSize: nat, bias: seq<Logit>) {
    && |bias| == vocabSize
    && forall t :: 0 <= t < vocabSize ==> bias[t] == if BlockedByLonger(badWords, past, t) then NegInf else NEUTRAL
  }

  lemma BlockedByOneMore(badWords: seq<seq<int>>, word: seq<int>, past: seq<int>, t: int)
    ensures BlockedByLonger(badWords + [word], past, t) <==>
      BlockedByLonger(badWords, past, t) || (|word| > 1 && EndsWith(past + [t], word))
  {
    hide EndsWith;
    assert forall w :: w in badWords + [word] <==> w in badWords || w == word;
  }

  /** One more word adds minus infinity at its last token if the rest of it has just been produced. */
  lemma OneMoreWord(badWords: seq<seq<int>>, word: seq<int>, past: seq<int>, vocabSize: nat, bias: seq<Logit>)
    requires word != [] && TokensIn(word, vocabSize) && MasksLonger(badWords, past, vocabSize, bias)
    ensures |word| == 1 || |word| > |past| + 1 ==> MasksLonger(badWords + [word], past, vocabSize, bias)
    ensures 1 < |word| <= |past| + 1 ==>
      var n := |word| - 1;
      var isMatch := past[|past| - n..] == word[..n];
      MasksLonger(badWords + [word], past, vocabSize,
                  bias[word[n] := Plus(bias[word[n]], if isMatch then NegInf else NEUTRAL)])
  {
    TooLong(word, past);
    if 1 < |word| <= |past| + 1 { CompletedBy(word, past); }
    hide BlockedByLonger, EndsWith;
    forall t
      ensures BlockedByLonger(badWords + [word], past, t) <==>
        BlockedByLonger(badWords, past, t) || (|word| > 1 && EndsWith(past + [t], word))
    {
      BlockedByOneMore(badWords, word, past, t);
    }
  }

  lemma TooLong(word: seq<int>, past: seq<int>)
    ensures |word| > |past| + 1 ==> forall t :: !EndsWith(past + [t], word)
  {
  }

  /** The two biases together mask exactly the blocked tokens. */
  lemma BiasedIsMasked(badWords: seq<seq<int>>, past: seq<int>, logits: seq<Logit>, a: seq<Logit>, b: seq<Logit>)
    requires |a| == |logits| && MasksLonger(badWords, past, |logits|, b)
    requires forall t :: 0 <= t < |a| ==> a[t] == if [t] in badWords then NegInf else NEUTRAL
    ensures Biased(logits, a, b) == Masked(badWords, past, logits)
  {
    forall t | 0 <= t < |logits|
      ensures Biased(logits, a, b)[t] == Masked(badWords, past, logits)[t]
    {
      BlockedSplit(badWords, past, t);
    }
  }

  /** A longer word is completed by exactly its last token, and only after its other tokens. */
  lemma CompletedBy(w: seq<int>, past: seq<int>)
    requires 1 < |w| <= |past| + 1
    ensures forall t :: EndsWith(past + [t], w) <==>
      t == w[|w| - 1] && past[|past| - (|w| - 1)..] == w[..|w| - 1]
  {
    forall t
      ensures EndsWith(past + [t], w) <==> t == w[|w| - 1] && past[|past| - (|w| - 1)..] == w[..|w| - 1]
    {
      var n := |past| + 1 - |w|;
      assert (past + [t])[n..] == past[n..] + [t];
      assert w == w[..|w| - 1] + [w[|w| - 1]];
    }
  }

  lemma BlockedSplit(badWords: seq<seq<int>>, past: seq<int>, t: int)
    ensures Blocked(badWords, past, t) <==> [t] in badWords || BlockedByLonger(badWords, past, t)
  {
    forall w | |w| == 1
      ensures EndsWith(past + [t], w) <==> w == [t]
    {
      assert (past + [t])[|past|..] == [t];
    }
    if [t] in badWords { assert EndsWith(past + [t], [t]); }
  }

  // ----- whole generation runs

  ghost predicate Occurs(w: seq<int>, out: seq<int>) {
    exists k :: 0 <= k <= |out| && EndsWith(out[..k], w)
  }

  /** Occurring is standing somewhere in the output, token by token. */
  lemma OccursMeans(w: seq<int>, out: seq<int>)
    ensures Occurs(w, out) <==> exists i, j :: 0 <= i <= j <= |out| && j - i == |w| && out[i..j] == w
  {
    if k :| 0 <= k <= |out| && EndsWith(out[..k], w) {
      assert out[k - |w|..k] == w;
    }
    if i, j :| 0 <= i <= j <= |out| && j - i == |w| && out[i..j] == w {
      assert out[..j][i..] == w;
      assert EndsWith(out[..j], w);
    }
  }

  lemma BadWordFreeMeans(badWords: seq<seq<int>>, out: seq<int>)
    ensures BadWordFree(badWords, out) <==>
      forall w, i, j :: w in badWords && w != [] && 0 <= i <= j <= |out| && j - i == |w| ==> out[i..j] != w
  {
    hide Occurs;
    forall w | w in badWords
      ensures Occurs(w, out) <==> exists i, j :: 0 <= i <= j <= |out| && j - i == |w| && out[i..j] == w
    {
      OccursMeans(w, out);
    }
  }

  ghost predicate BadWordFree(badWords: seq<seq<int>>, out: seq<int>) {
    forall w <- badWords :: w != [] ==> !Occurs(w, out)
  }

  /** An output that a sampler can produce with these logits: every token has a logit after masking. */
  ghost predicate Run(badWords: seq<seq<int>>, vocabSize: nat, out: seq<int>, logits: seq<seq<Logit>>) {
    && |logits| == |out|
    && (out != [] ==>
          var n := |out| - 1;
          && Run(badWords, vocabSize, out[..n], logits[..n])
          && |logits[n]| == vocabSize && 0 <= out[n] < vocabSize
          && Masked(badWords, out[..n], logits[n])[out[n]] != NegInf)
  }

  /** Occurring in one more token is occurring before or being completed by it. */
  lemma OccursSnoc(w: seq<int>, out: seq<int>, t: int)
    requires w != []
    ensures Occurs(w, out + [t]) <==> Occurs(w, out) || EndsWith(out + [t], w)
  {
    var more := out + [t];
    assert forall k :: 0 <= k <= |out| ==> more[..k] == out[..k];
    assert more[..|more|] == more;
  }

  /** Safety: however the logits come about, no banned word ever occurs in the output. */
  lemma {:induction false} NoBadWordOccurs(badWords: seq<seq<int>>, vocabSize: nat, out: seq<int>,
                                           logits: seq<seq<Logit>>)
    requires Run(badWords, vocabSize, out, logits)
    ensures BadWordFree(badWords, out)
  {
    if out == [] {
      forall w | w in badWords && w != [] ensures !Occurs(w, out) {}
    } else {
      var n := |out| - 1;
      NoBadWordOccurs(badWords, vocabSize, out[..n], logits[..n]);
      assert out == out[..n] + [out[n]];
      forall w | w in badWords && w != []
        ensures !Occurs(w, out)
      {
        OccursSnoc(w, out[..n], out[n]);
      }
    }
  }

  /** Exactness: with finite logits, every output free of banned words stays possible. */
  lemma {:induction false} EverythingElseIsPossible(badWords: seq<seq<int>>, vocabSize: nat, out: seq<int>,
                                                    logits: seq<seq<Logit>>)
    requires BadWordFree(badWords, out) && TokensIn(out, vocabSize)
    requires |logits| == |out| && forall k :: 0 <= k < |logits| ==> |logits[k]| == vocabSize
    requires forall k, t :: 0 <= k < |logits| && 0 <= t < |logits[k]| ==> logits[k][t].Fin?
    ensures Run(badWords, vocabSize, out, logits)
  {
    if out != [] {
      var n := |out| - 1;
      var before := out[..n];
      assert out == before + [out[n]];
      forall w | w in badWords && w != []
        ensures !Occurs(w, before) && !EndsWith(out, w)
      {
        OccursSnoc(w, before, out[n]);
      }
      EverythingElseIsPossible(badWords, vocabSize, before, logits[..n]);
      assert !Blocked(badWords, before, out[n]);
    }
  }
}
