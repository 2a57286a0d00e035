/** generate_seed_phrase: draw the requested number of words, with replacement,
    from the wordlist. The secure random source is an oracle: each draw is
    some index below the bound, and nothing else is known about it. */
module Phrase {
  import opened Common

  /** secrets.randbelow: an arbitrary index in [0, bound); a bound that is not
      positive is refused. */
  method RandBelow(bound: int) returns (r: Result<nat>)
    ensures bound <= 0 ==> r == Err(EmptyRange)
    ensures bound > 0 ==> r.Ok? && r.value < bound
  {
    if bound <= 0 {
      r := Err(EmptyRange);
    } else {
      var i: nat :| i < bound;
      r := Ok(i);
    }
  }

  ghost predicate InRange(draws: seq<nat>, n: nat)
  {
    forall k :: 0 <= k < |draws| ==> draws[k] < n
  }

  /** The phrase a given sequence of draws selects. */
  function Pick(words: seq<string>, draws: seq<nat>): (phrase: seq<string>)
    requires InRange(draws, |words|)
    ensures |phrase| == |draws|
    ensures forall k :: 0 <= k < |phrase| ==> phrase[k] == words[draws[k]] && phrase[k] in words
  {
    seq(|draws|, k requires 0 <= k < |draws| => words[draws[k]])
  }

  /** generate_seed_phrase: a non-positive count is refused; otherwise one draw
      per position, each word taken from the list at the drawn index. */
  method GenerateSeedPhrase(words: seq<string>, wordCount: int) returns (r: Result<seq<string>>)
    ensures wordCount <= 0 ==> r == Err(NonPositiveCount(wordCount))
    ensures wordCount > 0 && |words| == 0 ==> r == Err(EmptyRange)
    ensures wordCount > 0 && |words| > 0 ==> r.Ok? && |r.value| == wordCount
    ensures r.Ok? ==> forall w :: w in r.value ==> w in words
    ensures r.Ok? ==> exists draws :: |draws| == wordCount && InRange(draws, |words|) && r.value == Pick(words, draws)
  {
    if wordCount <= 0 {
      return Err(NonPositiveCount(wordCount));
    }
    var phrase: seq<string> := [];
    ghost var draws: seq<nat> := [];
    var k := 0;
    while k < wordCount
      invariant 0 <= k <= wordCount
      invariant |draws| == k
      invariant k > 0 ==> |words| > 0
      invariant InRange(draws, |words|)
      invariant phrase == Pick(words, draws)
    {
      var i := RandBelow(|words|);
      if i.Err? {
        return Err(i.error);
      }
      phrase := phrase + [words[i.value]];
      draws := draws + [i.value];
      k := k + 1;
    }
    r := Ok(phrase);
  }
}
