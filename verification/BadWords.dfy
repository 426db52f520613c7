/**
 Masking the logits of tokens that would complete a forbidden word. Logits are real numbers or minus
 infinity.
 */
module BadWords {
  import opened Wrappers

  datatype Logit = NegInf | Finite(x: real)

  function Plus(a: Logit, b: Logit): Logit {
    if a.NegInf? || b.NegInf? then NegInf else Finite(a.x + b.x)
  }

  datatype Error = ValueError | IndexError | RuntimeError

  datatype Result = Ok(logits: seq<Logit>) | Raises(error: Error)

  type Word = seq<int>

  ghost predicate EndsWith(s: seq<int>, w: Word) {
    |w| <= |s| && s[|s| - |w|..] == w
  }

  /** Adding `t` to the past tokens would end in one of the words. */
  ghost predicate Completes(words: seq<Word>, past: seq<int>, t: int) {
    exists j :: 0 <= j < |words| && EndsWith(past + [t], words[j])
  }

  ghost predicate InVocabulary(words: seq<Word>, vocab: nat) {
    forall j, k :: 0 <= j < |words| && 0 <= k < |words[j]| ==> 0 <= words[j][k] < vocab
  }

  ghost predicate NoEmpty(words: seq<Word>) { forall j :: 0 <= j < |words| ==> words[j] != [] }

  /** Exactly the completing tokens are masked and nothing else changes. */
  ghost predicate Masks(words: seq<Word>, past: seq<int>, before: seq<Logit>, after: seq<Logit>) {
    && |after| == |before|
    && forall t :: 0 <= t < |before| ==>
         after[t] == if Completes(words, past, t) then NegInf else before[t]
  }

  /** What one call answers, errors included. */
  ghost predicate Answers(words: seq<Word>, past: seq<int>, before: seq<Logit>, r: Result) {
    match r
    case Raises(ValueError) => !InVocabulary(words, |before|)
    case Raises(IndexError) => InVocabulary(words, |before|) && !NoEmpty(words)
    case Raises(RuntimeError) => false
    case Ok(after) => InVocabulary(words, |before|) && NoEmpty(words) && Masks(words, past, before, after)
  }

  /** The length of a sum of two tensors: equal lengths, or one of them stretched. */
  function Broadcast(n: nat, m: nat): Option<nat> {
    if n == m || m == 1 then Some(n) else if n == 1 then Some(m) else None
  }

  /** The index that position `t` of the sum reads in an operand of length `n`. */
  function Source(n: nat, t: nat): nat { if n == 1 then 0 else t }

  /** The word is long enough to count, short enough to be compared, and ends in a token beyond `n`. */
  ghost predicate EndsBeyond(w: Word, past: seq<int>, n: nat) { 2 <= |w| <= |past| + 1 && w[|w| - 1] >= n }

  ghost predicate AnyBeyond(words: seq<Word>, past: seq<int>, n: nat) {
    exists j :: 0 <= j < |words| && EndsBeyond(words[j], past, n)
  }

  /** What a call answers when the bias of the short words was made for a vocabulary of `m`. */
  ghost predicate AnswersFor(m: nat, words: seq<Word>, past: seq<int>, before: seq<Logit>, r: Result) {
    var n := |before|;
    match r
    case Raises(ValueError) => false
    case Raises(IndexError) => !NoEmpty(words) || AnyBeyond(words, past, n)
    case Raises(RuntimeError) => NoEmpty(words) && !AnyBeyond(words, past, n) && Broadcast(n, m).None?
    case Ok(after) =>
      && NoEmpty(words) && !AnyBeyond(words, past, n) && Broadcast(n, m) == Some(|after|)
      && forall t :: 0 <= t < |after| ==>
           after[t] == if [Source(m, t)] in words || CompletesLong(words, past, Source(n, t)) then NegInf
                       else before[Source(n, t)]
  }

  /** For the vocabulary of the logits themselves that is exactly the masking of completing tokens. */
  lemma AnswersForSame(words: seq<Word>, past: seq<int>, before: seq<Logit>, r: Result)
    requires InVocabulary(words, |before|)
    ensures AnswersFor(|before|, words, past, before, r) <==> Answers(words, past, before, r)
  {
    hide CompletesLong, Completes, EndsWith;
    forall j | 0 <= j < |words| ensures !EndsBeyond(words[j], past, |before|) {}
    if NoEmpty(words) {
      forall t: nat ensures Completes(words, past, t) <==> [t] in words || CompletesLong(words, past, t) {
        CompletesSplit(words, past, t);
      }
      assert forall t: nat :: t < |before| ==> Source(|before|, t) == t;
    }
  }

  /** The bias of the words of one token. */
  ghost predicate IsWordBias(words: seq<Word>, bias: seq<Logit>) {
    forall t :: 0 <= t < |bias| ==> bias[t] == if [t] in words then NegInf else Finite(0.0)
  }

  /** A longer word among `words` that `t` would complete. */
  ghost predicate CompletesLong(words: seq<Word>, past: seq<int>, t: int) {
    exists j :: 0 <= j < |words| && |words[j]| >= 2 && EndsWith(past + [t], words[j])
  }

  ghost predicate IsLastBias(words: seq<Word>, past: seq<int>, bias: seq<Logit>) {
    forall t :: 0 <= t < |bias| ==> bias[t] == if CompletesLong(words, past, t) then NegInf else Finite(0.0)
  }

  /** Comparing the prefix and naming the last token is the same as asking how the extended text ends. */
  lemma EndsWithPrefix(past: seq<int>, w: Word, t: int)
    requires |w| >= 2
    ensures EndsWith(past + [t], w) <==>
            |w| <= |past| + 1 && w[|w| - 1] == t && past[|past| - (|w| - 1)..] == w[..|w| - 1]
  {
    if |w| <= |past| + 1 {
      var s := past + [t];
      assert s[|s| - |w|..] == past[|past| - (|w| - 1)..] + [t];
      assert w == w[..|w| - 1] + [w[|w| - 1]];
      if s[|s| - |w|..] == w {
        assert w[..|w| - 1] == past[|past| - (|w| - 1)..];
      }
    }
  }

  lemma CompletesSplit(words: seq<Word>, past: seq<int>, t: int)
    requires NoEmpty(words)
    ensures Completes(words, past, t) <==> [t] in words || CompletesLong(words, past, t)
  {
    var s := past + [t];
    assert s[|s| - 1..] == [t];
    if Completes(words, past, t) {
      var j :| 0 <= j < |words| && EndsWith(s, words[j]);
      assert |words[j]| == 1 ==> words[j] == [t];
    }
    if [t] in words {
      var j :| 0 <= j < |words| && words[j] == [t];
      assert EndsWith(s, words[j]);
    }
  }

  lemma CompletesLongSnoc(words: seq<Word>, w: Word, past: seq<int>, t: int)
    ensures CompletesLong(words + [w], past, t) <==>
            CompletesLong(words, past, t) || (|w| >= 2 && EndsWith(past + [t], w))
  {
    var more := words + [w];
    if CompletesLong(words, past, t) {
      var j :| 0 <= j < |words| && |words[j]| >= 2 && EndsWith(past + [t], words[j]);
      assert more[j] == words[j];
    }
    if |w| >= 2 && EndsWith(past + [t], w) {
      assert more[|words|] == w;
    }
  }

  class Processor {
    const badWords: seq<Word>
    var wordBias: Option<seq<Logit>>

    constructor (badWords: seq<Word>)
      ensures this.badWords == badWords && wordBias == None
    {
      this.badWords := badWords;
      wordBias := None;
    }

    /** The cached bias, once there is one, is that of the words over a vocabulary that holds them. */
    ghost predicate Valid()
      reads this
    {
      wordBias.Some? ==> InVocabulary(badWords, |wordBias.value|) && IsWordBias(badWords, wordBias.value)
    }

    method InitWordBias(vocab: nat) returns (ok: bool)
      modifies this
      ensures ok == InVocabulary(badWords, vocab)
      ensures !ok ==> wordBias == old(wordBias)
      ensures ok ==> wordBias.Some? && |wordBias.value| == vocab && Valid()
    {
      ok := CheckTokenIds(badWords, vocab);
      if !ok { return; }
      var bias := seq(vocab, t => Finite(0.0));
      for i := 0 to |badWords|
        invariant |bias| == vocab && IsWordBias(badWords[..i], bias)
      {
        var w := badWords[i];
        assert badWords[..i + 1] == badWords[..i] + [w];
        if |w| == 1 {
          bias := bias[w[0] := NegInf];
          assert w == [w[0]];
        }
      }
      assert badWords[..|badWords|] == badWords;
      wordBias := Some(bias);
    }

    /** A first call caches the bias; any later call uses it, whatever the number of logits. */
    method Call(past: seq<int>, logits: seq<Logit>) returns (r: Result)
      requires Valid()
      modifies this
      ensures Valid() && (old(wordBias).Some? ==> wordBias == old(wordBias))
      ensures old(wordBias).None? || |old(wordBias).value| == |logits| ==> Answers(badWords, past, logits, r)
      ensures wordBias.None? ==> r == Raises(ValueError)
      ensures wordBias.Some? ==> AnswersFor(|wordBias.value|, badWords, past, logits, r)
    {
      hide EndsWith, IsWordBias, IsLastBias, Masks, CompletesLong, AddAll, Answers, AnswersFor, AnyBeyond;
      if wordBias.None? {
        var ok := InitWordBias(|logits|);
        if !ok {
          OutOfVocabulary(badWords, past, logits);
          return Raises(ValueError);
        }
      }
      r := Mask(past, logits);
      if |wordBias.value| == |logits| { AnswersForSame(badWords, past, logits, r); }
    }

    /** The part of a call after the bias is there. */
    method Mask(past: seq<int>, logits: seq<Logit>) returns (r: Result)
      requires Valid() && wordBias.Some?
      ensures AnswersFor(|wordBias.value|, badWords, past, logits, r)
    {
      hide EndsWith, IsWordBias, IsLastBias, CompletesLong, AddAll;
      var bias := seq(|logits|, t => Finite(0.0));
      NoWordNoBias(past, bias);
      for i := 0 to |badWords|
        invariant |bias| == |logits| && IsLastBias(badWords[..i], past, bias)
        invariant forall j :: 0 <= j < i ==> badWords[j] != [] && !EndsBeyond(badWords[j], past, |logits|)
      {
        var w := badWords[i];
        assert badWords[..i + 1] == badWords[..i] + [w];
        if |w| == 0 { return Raises(IndexError); }
        if |w| != 1 && |w| <= |past| + 1 {
          var last := w[|w| - 1];
          if last >= |logits| {
            assert EndsBeyond(badWords[i], past, |logits|);
            return Raises(IndexError);
          }
          LastBiasNext(badWords[..i], w, past, bias);
          var matches := past[|past| - (|w| - 1)..] == w[..|w| - 1];
          bias := bias[last := Plus(bias[last], if matches then NegInf else Finite(0.0))];
        } else {
          LastBiasNext(badWords[..i], w, past, bias);
        }
      }
      assert badWords[..|badWords|] == badWords;
      var length := Broadcast(|logits|, |wordBias.value|);
      if length.None? { return Raises(RuntimeError); }
      var masked := AddAll(logits, wordBias.value, bias, length.value);
      BiasesMask(badWords, past, logits, wordBias.value, bias, length.value);
      r := Ok(masked);
    }
  }

  lemma OutOfVocabulary(words: seq<Word>, past: seq<int>, before: seq<Logit>)
    requires !InVocabulary(words, |before|)
    ensures Answers(words, past, before, Raises(ValueError))
  {
  }

  method CheckTokenIds(words: seq<Word>, vocab: nat) returns (ok: bool)
    ensures ok == InVocabulary(words, vocab)
  {
    ok := true;
    for i := 0 to |words|
      invariant ok == InVocabulary(words[..i], vocab)
    {
      var w := words[i];
      for k := 0 to |w|
        invariant ok == (InVocabulary(words[..i], vocab) && forall m :: 0 <= m < k ==> 0 <= w[m] < vocab)
      {
        if w[k] < 0 || w[k] >= vocab { ok := false; }
      }
      VocabularySnoc(words[..i], w, vocab);
      assert words[..i + 1] == words[..i] + [w];
    }
    assert words[..|words|] == words;
  }

  lemma VocabularySnoc(words: seq<Word>, w: Word, vocab: nat)
    ensures InVocabulary(words + [w], vocab) <==>
            InVocabulary(words, vocab) && forall m :: 0 <= m < |w| ==> 0 <= w[m] < vocab
  {
    var more := words + [w];
    if InVocabulary(more, vocab) {
      forall j, k | 0 <= j < |words| && 0 <= k < |words[j]| ensures 0 <= words[j][k] < vocab {
        assert more[j] == words[j];
      }
      forall m | 0 <= m < |w| ensures 0 <= w[m] < vocab {
        assert more[|words|][m] == w[m];
      }
    }
  }

  /** One word's contribution to the bias of its last token. */
  function Bumped(bias: seq<Logit>, past: seq<int>, w: Word): (r: seq<Logit>)
    requires w != [] && (2 <= |w| <= |past| + 1 ==> 0 <= w[|w| - 1] < |bias|)
    ensures |r| == |bias|
  {
    if |w| == 1 || |w| > |past| + 1 then bias
    else
      var last, matches := w[|w| - 1], past[|past| - (|w| - 1)..] == w[..|w| - 1];
      bias[last := Plus(bias[last], if matches then NegInf else Finite(0.0))]
  }

  lemma BumpedAt(bias: seq<Logit>, past: seq<int>, w: Word, t: int)
    requires w != [] && (2 <= |w| <= |past| + 1 ==> 0 <= w[|w| - 1] < |bias|) && 0 <= t < |bias|
    requires bias[t] == NegInf || bias[t] == Finite(0.0)
    ensures Bumped(bias, past, w)[t] == if |w| >= 2 && EndsWith(past + [t], w) then NegInf else bias[t]
  {
    if |w| >= 2 { EndsWithPrefix(past, w, t); }
    hide EndsWith;
  }

  lemma LastBiasNext(words: seq<Word>, w: Word, past: seq<int>, bias: seq<Logit>)
    requires w != [] && (2 <= |w| <= |past| + 1 ==> 0 <= w[|w| - 1] < |bias|) && IsLastBias(words, past, bias)
    ensures IsLastBias(words + [w], past, Bumped(bias, past, w))
  {
    hide EndsWith, CompletesLong, Bumped;
    forall t | 0 <= t < |bias|
      ensures Bumped(bias, past, w)[t] == if CompletesLong(words + [w], past, t) then NegInf else Finite(0.0)
    {
      CompletesLongSnoc(words, w, past, t);
      BumpedAt(bias, past, w, t);
    }
  }

  lemma NoWordNoBias(past: seq<int>, bias: seq<Logit>)
    requires forall t :: 0 <= t < |bias| ==> bias[t] == Finite(0.0)
    ensures IsLastBias([], past, bias)
  {
  }

  /** The sum of logits, short-word bias and long-word bias, shorter ones stretched to `length`. */
  function AddAll(a: seq<Logit>, b: seq<Logit>, c: seq<Logit>, length: nat): (r: seq<Logit>)
    requires |a| == |c| && Broadcast(|a|, |b|) == Some(length)
    ensures |r| == length
  {
    seq(length, t requires 0 <= t < length =>
      Plus(Plus(a[Source(|a|, t)], b[Source(|b|, t)]), c[Source(|c|, t)]))
  }

  lemma BiasesMask(words: seq<Word>, past: seq<int>, logits: seq<Logit>, wordBias: seq<Logit>, lastBias: seq<Logit>,
                   length: nat)
    requires |logits| == |lastBias| && Broadcast(|logits|, |wordBias|) == Some(length)
    requires IsWordBias(words, wordBias) && IsLastBias(words, past, lastBias)
    ensures var masked, n, m := AddAll(logits, wordBias, lastBias, length), |logits|, |wordBias|;
            forall t :: 0 <= t < length ==>
              masked[t] == if [Source(m, t)] in words || CompletesLong(words, past, Source(n, t)) then NegInf
                           else logits[Source(n, t)]
  {
    hide CompletesLong;
  }

  // ---- Whole generations ----

  ghost predicate OccursAt(w: Word, g: seq<int>, i: nat) { i + |w| <= |g| && g[i..i + |w|] == w }

  ghost predicate Occurs(w: Word, g: seq<int>) { exists i: nat :: OccursAt(w, g, i) }

  /** `g` picks, at every step, a token whose masked logit is above minus infinity. */
  ghost predicate Allowed(g: seq<int>, masked: seq<seq<Logit>>) {
    && |masked| == |g|
    && forall i :: 0 <= i < |g| ==> 0 <= g[i] < |masked[i]| && masked[i][g[i]] != NegInf
  }

  ghost predicate MaskedRun(words: seq<Word>, g: seq<int>, logits: seq<seq<Logit>>, masked: seq<seq<Logit>>) {
    && |logits| == |masked| == |g|
    && forall i :: 0 <= i < |g| ==> Masks(words, g[..i], logits[i], masked[i])
  }

  lemma OccursIffEnds(w: Word, g: seq<int>)
    requires w != []
    ensures Occurs(w, g) <==> exists i :: 0 <= i < |g| && EndsWith(g[..i] + [g[i]], w)
  {
    if Occurs(w, g) {
      var i: nat :| OccursAt(w, g, i);
      var e := i + |w| - 1;
      assert g[..e] + [g[e]] == g[..e + 1];
      assert g[..e + 1][i..] == g[i..i + |w|];
      assert EndsWith(g[..e] + [g[e]], w);
    }
    if e :| 0 <= e < |g| && EndsWith(g[..e] + [g[e]], w) {
      assert g[..e] + [g[e]] == g[..e + 1];
      var i := e + 1 - |w|;
      assert g[..e + 1][i..] == g[i..i + |w|];
      assert OccursAt(w, g, i);
    }
  }

  /**
   The generations that never pick a masked token are exactly those that contain no bad word anywhere
   and pick no token the model itself ruled out.
   */
  lemma AllowedIff(words: seq<Word>, g: seq<int>, logits: seq<seq<Logit>>, masked: seq<seq<Logit>>)
    requires NoEmpty(words) && MaskedRun(words, g, logits, masked)
    ensures Allowed(g, masked) <==>
            Allowed(g, logits) && forall j :: 0 <= j < |words| ==> !Occurs(words[j], g)
  {
    if Allowed(g, masked) {
      forall i | 0 <= i < |g| ensures 0 <= g[i] < |logits[i]| && logits[i][g[i]] != NegInf {
        assert Masks(words, g[..i], logits[i], masked[i]);
      }
      forall j | 0 <= j < |words| ensures !Occurs(words[j], g) {
        forall i | 0 <= i < |g| ensures !EndsWith(g[..i] + [g[i]], words[j]) {
          assert Masks(words, g[..i], logits[i], masked[i]);
        }
        OccursIffEnds(words[j], g);
      }
    }
    if Allowed(g, logits) && forall j :: 0 <= j < |words| ==> !Occurs(words[j], g) {
      forall i | 0 <= i < |g| ensures 0 <= g[i] < |masked[i]| && masked[i][g[i]] != NegInf {
        assert Masks(words, g[..i], logits[i], masked[i]);
        NotCompleting(words, g, i);
      }
    }
  }

  lemma NotCompleting(words: seq<Word>, g: seq<int>, i: nat)
    requires NoEmpty(words) && i < |g| && forall j :: 0 <= j < |words| ==> !Occurs(words[j], g)
    ensures !Completes(words, g[..i], g[i])
  {
    forall j | 0 <= j < |words| ensures !EndsWith(g[..i] + [g[i]], words[j]) {
      OccursIffEnds(words[j], g);
    }
  }
}
