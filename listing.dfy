/** list_wallets: one text block per preset, in ascending key order, blocks
    separated by a blank line. */
module Listing {
  import opened Text
  import opened Registry

  /** Python's ordering of strings: lexicographic by character code, a proper
      prefix coming first. */
  predicate KeyLe(a: string, b: string)
    decreases |a|
  {
    if |a| == 0 then true
    else if |b| == 0 then false
    else if a[0] != b[0] then a[0] < b[0]
    else KeyLe(a[1..], b[1..])
  }

  lemma {:induction false} KeyLeTotal(a: string, b: string)
    ensures KeyLe(a, b) || KeyLe(b, a)
    decreases |a|
  {
    if |a| > 0 && |b| > 0 && a[0] == b[0] {
      KeyLeTotal(a[1..], b[1..]);
    }
  }

  lemma {:induction false} KeyLeTransitive(a: string, b: string, c: string)
    requires KeyLe(a, b) && KeyLe(b, c)
    ensures KeyLe(a, c)
    decreases |a|
  {
    if |a| > 0 && |b| > 0 && |c| > 0 && a[0] == b[0] == c[0] {
      KeyLeTransitive(a[1..], b[1..], c[1..]);
    }
  }

  lemma {:induction false} KeyLeAntisymmetric(a: string, b: string)
    requires KeyLe(a, b) && KeyLe(b, a)
    ensures a == b
    decreases |a|
  {
    if |a| > 0 && |b| > 0 {
      KeyLeAntisymmetric(a[1..], b[1..]);
      assert a == [a[0]] + a[1..] && b == [b[0]] + b[1..];
    }
  }

  /** The textbook lexicographic order: a is a prefix of b, or at the first
      position where they differ a has the smaller character. */
  ghost predicate LexLe(a: string, b: string)
  {
    a <= b || exists k :: 0 <= k < |a| && k < |b| && a[..k] == b[..k] && a[k] < b[k]
  }

  /** KeyLe is exactly that order. */
  lemma {:induction false} KeyLeLexicographic(a: string, b: string)
    ensures KeyLe(a, b) <==> LexLe(a, b)
    decreases |a|
  {
    if |a| == 0 {
      assert a <= b;
    } else if |b| == 0 {
      assert !(a <= b);
    } else if a[0] != b[0] {
      LexLeHeadsDiffer(a, b);
    } else {
      KeyLeLexicographic(a[1..], b[1..]);
      LexLeHeadsEqual(a, b);
    }
  }

  /** Strings with different first characters are ordered by those. */
  lemma LexLeHeadsDiffer(a: string, b: string)
    requires |a| > 0 && |b| > 0 && a[0] != b[0]
    ensures LexLe(a, b) <==> a[0] < b[0]
  {
    assert !(a <= b);
    if a[0] < b[0] {
      assert a[..0] == b[..0];
    }
  }

  /** Strings with the same first character are ordered by the rest. */
  lemma LexLeHeadsEqual(a: string, b: string)
    requires |a| > 0 && |b| > 0 && a[0] == b[0]
    ensures LexLe(a, b) <==> LexLe(a[1..], b[1..])
  {
    assert a == [a[0]] + a[1..] && b == [b[0]] + b[1..];
    assert a <= b <==> a[1..] <= b[1..];
    if k :| 0 <= k < |a| && k < |b| && a[..k] == b[..k] && a[k] < b[k] {
      LexWitnessDrop(a, b, k);
    }
    if k :| 0 <= k < |a| - 1 && k < |b| - 1 && a[1..][..k] == b[1..][..k] && a[1..][k] < b[1..][k] {
      LexWitnessAdd(a, b, k);
    }
  }

  /** A first difference at k > 0 is a first difference of the tails at k - 1. */
  lemma LexWitnessDrop(a: string, b: string, k: int)
    requires |a| > 0 && |b| > 0 && a[0] == b[0]
    requires 0 <= k < |a| && k < |b| && a[..k] == b[..k] && a[k] < b[k]
    ensures 0 <= k - 1 && a[1..][..k - 1] == b[1..][..k - 1] && a[1..][k - 1] < b[1..][k - 1]
  {
    assert a[1..][..k - 1] == a[..k][1..] && b[1..][..k - 1] == b[..k][1..];
  }

  /** A first difference of the tails at k is one of the strings at k + 1. */
  lemma LexWitnessAdd(a: string, b: string, k: int)
    requires |a| > 0 && |b| > 0 && a[0] == b[0]
    requires 0 <= k < |a| - 1 && k < |b| - 1 && a[1..][..k] == b[1..][..k] && a[1..][k] < b[1..][k]
    ensures a[..k + 1] == b[..k + 1] && a[k + 1] < b[k + 1]
  {
    assert a[..k + 1] == [a[0]] + a[1..][..k] && b[..k + 1] == [b[0]] + b[1..][..k];
  }

  ghost predicate SortedByKey(es: seq<Entry>)
  {
    forall i, j :: 0 <= i < j < |es| ==> KeyLe(es[i].key, es[j].key)
  }

  /** An entry no greater than the head of a sorted list can go in front. */
  lemma SortedCons(e: Entry, es: seq<Entry>)
    requires SortedByKey(es) && es != [] && KeyLe(e.key, es[0].key)
    ensures SortedByKey([e] + es)
  {
    forall j | 0 <= j < |es| ensures KeyLe(e.key, es[j].key) {
      if j > 0 { KeyLeTransitive(e.key, es[0].key, es[j].key); }
    }
  }

  /** An entry no greater than any element of a sorted list can go in front. */
  lemma SortedConsBelowAll(x: Entry, rest: seq<Entry>)
    requires SortedByKey(rest)
    requires forall y | y in multiset(rest) :: KeyLe(x.key, y.key)
    ensures SortedByKey([x] + rest)
  {
    forall j | 0 <= j < |rest| ensures KeyLe(x.key, rest[j].key) {
      assert rest[j] in multiset(rest);
    }
  }

  /** Insert one entry into a list already sorted by key. */
  function InsertByKey(e: Entry, es: seq<Entry>): (r: seq<Entry>)
    requires SortedByKey(es)
    ensures SortedByKey(r)
    ensures multiset(r) == multiset(es) + multiset{e}
  {
    if es == [] then [e]
    else if KeyLe(e.key, es[0].key) then
      SortedCons(e, es);
      [e] + es
    else
      var rest := InsertByKey(e, es[1..]);
      assert es == [es[0]] + es[1..];
      assert forall y | y in multiset(rest) :: KeyLe(es[0].key, y.key) by {
        KeyLeTotal(e.key, es[0].key);
        forall y | y in multiset(rest) ensures KeyLe(es[0].key, y.key) {
          if y != e { assert y in es[1..]; }
        }
      }
      SortedConsBelowAll(es[0], rest);
      [es[0]] + rest
  }

  /** sorted(): the entries in ascending key order, nothing added or lost. */
  function SortByKey(es: seq<Entry>): (r: seq<Entry>)
    ensures SortedByKey(r)
    ensures multiset(r) == multiset(es)
  {
    if es == [] then []
    else
      assert es == [es[0]] + es[1..];
      InsertByKey(es[0], SortByKey(es[1..]))
  }

  /** With distinct keys no entry occurs twice. */
  lemma {:induction false} OccursAtMostOnce(es: seq<Entry>, x: Entry)
    requires KeysDistinct(es)
    ensures multiset(es)[x] <= 1
  {
    if es != [] {
      assert es == [es[0]] + es[1..];
      assert KeysDistinct(es[1..]) by {
        forall a, b | 0 <= a < b < |es| - 1 ensures es[1..][a].key != es[1..][b].key {
          assert es[1..][a] == es[a + 1] && es[1..][b] == es[b + 1];
        }
      }
      OccursAtMostOnce(es[1..], x);
    }
  }

  /** Two positions holding the same entry make it occur twice. */
  lemma OccursTwice(r: seq<Entry>, i: int, j: int)
    requires 0 <= i < j < |r| && r[i] == r[j]
    ensures multiset(r)[r[i]] >= 2
  {
    assert r == r[..j] + r[j..];
    assert r[i] in r[..j];
    assert r[j..][0] == r[i];
  }

  /** Reordering a table with distinct keys keeps the keys distinct. */
  lemma PermutationKeepsKeysDistinct(es: seq<Entry>, r: seq<Entry>)
    requires KeysDistinct(es) && multiset(r) == multiset(es)
    ensures KeysDistinct(r)
  {
    forall i, j | 0 <= i < j < |r| ensures r[i].key != r[j].key {
      if r[i].key == r[j].key {
        assert r[i] in multiset(es) && r[j] in multiset(es);
        var a :| 0 <= a < |es| && es[a] == r[i];
        var b :| 0 <= b < |es| && es[b] == r[j];
        assert a == b;
        OccursTwice(r, i, j);
        OccursAtMostOnce(es, r[i]);
        assert false;
      }
    }
  }

  /** The presets are listed each exactly once, in strictly ascending key order. */
  lemma ListingOrder()
    ensures |SortByKey(Entries())| == |Entries()|
    ensures multiset(SortByKey(Entries())) == multiset(Entries())
    ensures forall i, j :: 0 <= i < j < |SortByKey(Entries())| ==>
      KeyLe(SortByKey(Entries())[i].key, SortByKey(Entries())[j].key)
      && SortByKey(Entries())[i].key != SortByKey(Entries())[j].key
  {
    var r := SortByKey(Entries());
    assert |r| == |multiset(r)| == |multiset(Entries())| == |Entries()|;
    PermutationKeepsKeysDistinct(Entries(), r);
  }

  /** The text block describing one preset: a first line with name and key,
      then technology, supported lengths in their configured order, and notes,
      each on a line of its own. */
  function Block(e: Entry): (r: string)
    ensures e.profile.name + " (" + e.key + ")\n" <= r
    ensures Occurs("  Technology: " + e.profile.technology + "\n", r)
    ensures Occurs("  Supported lengths: " + Join(Decimals(e.profile.wordCounts), ", ") + "\n", r)
    ensures |r| >= |e.profile.notes| + 9 && r[|r| - |e.profile.notes| - 9..] == "  Notes: " + e.profile.notes
  {
    var header := e.profile.name + " (" + e.key + ")\n";
    var technology := "  Technology: " + e.profile.technology + "\n";
    var lengths := "  Supported lengths: " + Join(Decimals(e.profile.wordCounts), ", ") + "\n";
    var footer := "  Notes: " + e.profile.notes;
    FourPieces(header, technology, lengths, footer);
    header + technology + lengths + footer
  }

  /** Where each of four concatenated pieces sits in the result. */
  lemma FourPieces(a: string, b: string, c: string, d: string)
    ensures a <= a + b + c + d
    ensures Occurs(b, a + b + c + d) && Occurs(c, a + b + c + d)
    ensures (a + b + c + d)[|a + b + c|..] == d
  {
    var r := a + b + c + d;
    assert b <= r[|a|..];
    assert c <= r[|a + b|..];
  }

  /** The decimal form of each count, in the same order: str(c) for each. */
  function Decimals(counts: seq<int>): (r: seq<string>)
    ensures |r| == |counts|
    ensures forall k :: 0 <= k < |r| && counts[k] >= 0 ==>
      |r[k]| >= 1 && AllDigits(r[k]) && DecimalValue(r[k]) == counts[k] && (r[k][0] == '0' ==> r[k] == "0")
    ensures forall k :: 0 <= k < |r| && counts[k] < 0 ==>
      |r[k]| >= 2 && r[k][0] == '-' && AllDigits(r[k][1..]) && DecimalValue(r[k][1..]) == -counts[k] && r[k][1] != '0'
  {
    seq(|counts|, k requires 0 <= k < |counts| => IntToDecimal(counts[k]))
  }

  function Blocks(es: seq<Entry>): (r: seq<string>)
    ensures |r| == |es|
  {
    seq(|es|, k requires 0 <= k < |es| => Block(es[k]))
  }

  /** What list_wallets produces for a table: the blocks in key order,
      separated by a blank line. The block of every entry of the table
      appears in it. */
  function ListingOf(table: seq<Entry>): (text: string)
    ensures forall e :: e in table ==> Occurs(Block(e), text)
  {
    ListedBlocksOccur(table);
    Join(Blocks(SortByKey(table)), "\n\n")
  }

  /** The listing of the preset table. */
  function Listing(): string
  {
    ListingOf(Entries())
  }

  /** Sorting loses no entry, so the block of every entry of the table is
      part of the joined listing. */
  lemma ListedBlocksOccur(table: seq<Entry>)
    ensures forall e :: e in table ==> Occurs(Block(e), Join(Blocks(SortByKey(table)), "\n\n"))
  {
    forall e | e in table ensures Occurs(Block(e), Join(Blocks(SortByKey(table)), "\n\n")) {
      var sorted := SortByKey(table);
      assert e in multiset(table);
      var k :| 0 <= k < |sorted| && sorted[k] == e;
      BlockOccurs(sorted, k);
    }
  }

  /** The k-th block is part of the joined listing. */
  lemma BlockOccurs(sorted: seq<Entry>, k: int)
    requires 0 <= k < |sorted|
    ensures Occurs(Block(sorted[k]), Join(Blocks(sorted), "\n\n"))
  {
    assert Blocks(sorted)[k] == Block(sorted[k]);
    JoinOccurs(Blocks(sorted), "\n\n", k);
  }

  /** Extending a prefix by one entry extends its blocks by that entry's block. */
  lemma BlocksSnoc(es: seq<Entry>, i: int)
    requires 0 <= i < |es|
    ensures Blocks(es[..i + 1]) == Blocks(es[..i]) + [Block(es[i])]
  {
    assert es[..i + 1][i] == es[i];
  }

  /** The listing walks the sorted presets, collecting one block each, and
      joins the blocks with a blank line. */
  method ListWallets() returns (text: string)
    ensures text == Listing()
  {
    text := ListTable(Entries());
  }

  /** The loop of list_wallets over a given table. */
  method ListTable(table: seq<Entry>) returns (text: string)
    ensures text == ListingOf(table)
  {
    var sorted := SortByKey(table);
    var lines: seq<string> := [];
    var i := 0;
    while i < |sorted|
      invariant 0 <= i <= |sorted|
      invariant lines == Blocks(sorted[..i])
    {
      BlocksSnoc(sorted, i);
      lines := lines + [Block(sorted[i])];
      i := i + 1;
    }
    assert sorted[..i] == sorted;
    text := Join(lines, "\n\n");
  }
}
