/** ensure_wordlist: load the words of a newline-delimited wordlist, refusing a
    missing file or one with too few usable words. The file system is not
    modelled: whether the path exists and the lines the file splits into are
    given. */
module Wordlist {
  import opened Common
  import opened Text

  /** The fewest usable words a wordlist may have. */
  const MinWords: nat := 2048

  /** Every line trimmed, blank lines dropped; order and duplicates kept. */
  function NonBlankLines(lines: seq<string>): (words: seq<string>)
    ensures |words| <= |lines|
    ensures forall k :: 0 <= k < |words| ==> words[k] != [] && IsTrimmed(words[k])
  {
    if lines == [] then []
    else
      var w := Strip(lines[0]);
      (if w == [] then [] else [w]) + NonBlankLines(lines[1..])
  }

  /** Filtering a file is filtering its parts one after the other: nothing is
      reordered and nothing is merged across parts, so duplicates survive. */
  lemma {:induction false} NonBlankLinesAppend(a: seq<string>, b: seq<string>)
    ensures NonBlankLines(a + b) == NonBlankLines(a) + NonBlankLines(b)
  {
    if a != [] {
      var head := if Strip(a[0]) == [] then [] else [Strip(a[0])];
      assert (a + b)[0] == a[0];
      assert (a + b)[1..] == a[1..] + b;
      assert NonBlankLines(a + b) == head + NonBlankLines(a[1..] + b);
      NonBlankLinesAppend(a[1..], b);
      assert NonBlankLines(a) == head + NonBlankLines(a[1..]);
    } else {
      assert a + b == b;
    }
  }

  /** A word is loaded exactly when some line strips to it and it is not empty. */
  lemma {:induction false} NonBlankLinesMembers(lines: seq<string>, w: string)
    ensures w in NonBlankLines(lines) <==> w != [] && exists i :: 0 <= i < |lines| && Strip(lines[i]) == w
  {
    if lines != [] {
      NonBlankLinesMembers(lines[1..], w);
      if exists i :: 0 <= i < |lines[1..]| && Strip(lines[1..][i]) == w {
        var i :| 0 <= i < |lines[1..]| && Strip(lines[1..][i]) == w;
        assert Strip(lines[i + 1]) == w;
      }
      if exists i :: 0 <= i < |lines| && Strip(lines[i]) == w {
        var i :| 0 <= i < |lines| && Strip(lines[i]) == w;
        if i > 0 { assert Strip(lines[1..][i - 1]) == w; }
      }
    }
  }

  /** ensure_wordlist. */
  function EnsureWordlist(pathExists: bool, lines: seq<string>): (r: Result<seq<string>>)
    ensures !pathExists ==> r == Err(WordlistNotFound)
    ensures pathExists ==> (r.Ok? <==> |NonBlankLines(lines)| >= MinWords)
    ensures pathExists && r.Err? ==> r.error == WordlistTooShort(|NonBlankLines(lines)|)
    ensures r.Ok? ==> r.value == NonBlankLines(lines) && |r.value| >= MinWords
  {
    if !pathExists then Err(WordlistNotFound)
    else
      var words := NonBlankLines(lines);
      if |words| < MinWords then Err(WordlistTooShort(|words|)) else Ok(words)
  }

  /** Blank lines neither help nor hurt: inserting one anywhere leaves the
      outcome unchanged. */
  lemma BlankLineIgnored(pathExists: bool, before: seq<string>, blank: string, after: seq<string>)
    requires AllSpace(blank)
    ensures EnsureWordlist(pathExists, before + [blank] + after) == EnsureWordlist(pathExists, before + after)
  {
    NonBlankLinesAppend(before + [blank], after);
    NonBlankLinesAppend(before, [blank]);
    NonBlankLinesAppend(before, after);
    assert NonBlankLines([blank]) == [] by {
      assert [blank][0] == blank && Strip(blank) == [];
      assert [blank][1..] == [];
    }
    assert NonBlankLines(before + [blank] + after) == NonBlankLines(before + after);
  }

  /** A file with fewer than 2048 lines is refused, whatever the lines hold. */
  lemma ShortFileRefused(lines: seq<string>)
    requires |lines| < MinWords
    ensures EnsureWordlist(true, lines) == Err(WordlistTooShort(|NonBlankLines(lines)|))
  {
  }

  /** Every loaded word is non-empty and carries no surrounding whitespace. */
  lemma LoadedWordsTrimmed(pathExists: bool, lines: seq<string>, k: int)
    requires EnsureWordlist(pathExists, lines).Ok? && 0 <= k < |EnsureWordlist(pathExists, lines).value|
    ensures EnsureWordlist(pathExists, lines).value[k] != []
    ensures IsTrimmed(EnsureWordlist(pathExists, lines).value[k])
  {
  }
}
