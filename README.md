# Seed phrase generator — a verified model

This project models the core of `seed_phrase_generator.py`. The script is a
command-line tool that prints mnemonic seed phrases for several wallet
technologies.

It covers the following parts of the script:

- **The preset table** (`WALLET_PROFILES`): nine wallets with a display
  name, a technology, the phrase lengths each offers and notes. It is
  modelled in the `Registry` module.
- **Wallet selection** (`select_wallet_profile`): a wallet name is folded to
  lower case and looked up in the table.
- **Wordlist loading** (`ensure_wordlist`): the lines of a file are trimmed,
  blank lines are dropped, and at least 2048 words are required. It is
  modelled in the `Wordlist` module, with the trimming and case folding in
  `Text`.
- **Phrase drawing** (`generate_seed_phrase`): words are drawn uniformly at
  random with replacement. The random index source is a method `RandBelow`
  whose result is only known to lie in range. It is modelled in the
  `Phrase` module.
- **The preset listing** (`list_wallets`): the presets are sorted by key,
  one text block is built per preset, and the blocks are joined with blank
  lines. It is modelled in the `Listing` module.
- **The program's decision table** (`main`): in the `Cli` module.
  - `--list-wallets` short-circuits everything else.
  - Otherwise the failures come in this order: an unknown wallet, then a
    request that names neither a wallet nor a length, then the wordlist,
    then a length the wallet does not offer.

Python exceptions and `SystemExit` become the `Common.Error` datatype,
returned through `Result`. The file system is a map from paths to the lines
of each file.

## Model

| member | source | states |
|---|---|---|
| Registry.Entries | seed_phrase_generator.py:12-67 | The table holds nine presets and is well formed: keys are unique and all lower case, and every preset offers at least one length, all positive, so `supported[0]` exists. |
| Registry.Get | seed_phrase_generator.py:90 | Dictionary lookup: the result is Some exactly when a stored entry has that key, and then it is that entry's profile. |
| Registry.GetStored | seed_phrase_generator.py:90 | In a table with unique keys, looking up the key of entry i returns entry i's profile. |
| Registry.SelectWalletProfile | seed_phrase_generator.py:86-95 | No name gives no preset. A name succeeds exactly when its lower-case form is a registered key, and the result is the preset stored under that key. Otherwise the error is UnknownWallet carrying the name as given. A selected preset's lengths are valid. |
| Registry.SelectAnySpelling | seed_phrase_generator.py:89-90 | Any name whose lower-case form is entry i's key selects entry i's profile. |
| Registry.SelectByKey | seed_phrase_generator.py:89-90 | Every preset is selected by its own key. |
| Registry.SelectIgnoresCase | seed_phrase_generator.py:89 | Two names with the same lower-case form both succeed with the same preset, or both fail. |
| Registry.SelectUnknown | seed_phrase_generator.py:91-94 | A name whose lower-case form is no key is refused with UnknownWallet(name). |
| Registry.TrezorPreset | seed_phrase_generator.py:19-24 | "TREZOR" selects the Trezor preset, which offers [12, 24]. |
| Text.Lower | seed_phrase_generator.py:89 | Case folding keeps the length and leaves no upper-case letter. Non-letters are unchanged and each of A-Z maps to its lower-case letter. |
| Text.LowerOfLowerCase | seed_phrase_generator.py:89 | Folding a string that has no upper-case letter leaves it unchanged. |
| Text.Strip | seed_phrase_generator.py:78 | The result is trimmed and no longer than the input. It is empty exactly when the input is all whitespace. |
| Text.StripBounds | seed_phrase_generator.py:78 | The result is a contiguous slice of the input, and only whitespace lies before and after it. |
| Text.StripSurrounded | seed_phrase_generator.py:78 | Stripping whitespace padding from a trimmed core gives back the core exactly. |
| Text.NatToDecimal | seed_phrase_generator.py:107 | The decimal rendering is non-empty, all digits and without a leading zero. |
| Text.DecimalRoundTrip | seed_phrase_generator.py:107 | Reading the decimal rendering back gives the original number. |
| Text.IntToDecimal | seed_phrase_generator.py:107 | `str(c)` of an integer, in canonical form. For c >= 0 it is decimal digits that read back as c, with no leading zero unless it is "0". For c < 0 it is a minus sign followed by such digits, which read back as -c and do not start with 0. |
| Text.Join | seed_phrase_generator.py:107 | `sep.join(parts)`: empty for no parts. Otherwise it begins with the first part, and its length is the parts' total length plus one separator between each pair of neighbours. The order of the parts and the placement of the separators are stated by JoinAppend. |
| Text.JoinAppend | seed_phrase_generator.py:107 | Joining a + b (both non-empty) is joining a, then one separator, then joining b. So the parts keep their order, and exactly one separator stands between neighbours. |
| Text.JoinOffset | seed_phrase_generator.py:112 | Every part occurs, unaltered, as a contiguous piece of the joined string. |
| Wordlist.NonBlankLines | seed_phrase_generator.py:78 | The loaded words are no more numerous than the lines, and each is non-empty and trimmed. |
| Wordlist.NonBlankLinesAppend | seed_phrase_generator.py:78 | Loading a concatenation is loading each part in turn. Nothing is reordered, and duplicates are kept. |
| Wordlist.NonBlankLinesMembers | seed_phrase_generator.py:78 | A word is loaded exactly when it is non-empty and some line strips to it. |
| Wordlist.EnsureWordlist | seed_phrase_generator.py:70-83 | A missing path gives WordlistNotFound. An existing file succeeds exactly when it holds at least 2048 non-blank lines, and then yields those trimmed lines. Otherwise it gives WordlistTooShort with the count found. |
| Wordlist.BlankLineIgnored | seed_phrase_generator.py:78-79 | Inserting a whitespace-only line anywhere does not change the outcome. |
| Wordlist.ShortFileRefused | seed_phrase_generator.py:79-82 | A file with fewer than 2048 lines is always refused. |
| Wordlist.LoadedWordsTrimmed | seed_phrase_generator.py:78 | Every word that was loaded is non-empty and has no surrounding whitespace. |
| Phrase.RandBelow | seed_phrase_generator.py:101 | A bound of zero or less is an error, like `secrets.randbelow`. Otherwise the index lies in [0, bound). |
| Phrase.Pick | seed_phrase_generator.py:101 | The phrase has one word per draw, and each word is the word at that draw's index. |
| Phrase.GenerateSeedPhrase | seed_phrase_generator.py:98-101 | A non-positive count is refused with NonPositiveCount, and an empty wordlist with EmptyRange. Otherwise the phrase has exactly the requested number of words, each from the list, chosen by some sequence of in-range draws. |
| Listing.KeyLeLexicographic | seed_phrase_generator.py:106 | KeyLe, the key order `sorted` uses, is exactly lexicographic order: a prefix comes first, otherwise the smaller character at the first difference decides. |
| Listing.KeyLeTotal | seed_phrase_generator.py:106 | The string order used by `sorted` is total. |
| Listing.KeyLeTransitive | seed_phrase_generator.py:106 | The string order used by `sorted` is transitive. |
| Listing.KeyLeAntisymmetric | seed_phrase_generator.py:106 | The string order used by `sorted` is antisymmetric. |
| Listing.InsertByKey | seed_phrase_generator.py:106 | Inserting into a list sorted by key keeps it sorted and adds exactly the new entry. |
| Listing.SortByKey | seed_phrase_generator.py:106 | The result is sorted by key and is a permutation of the input. |
| Listing.OccursAtMostOnce | seed_phrase_generator.py:12-67 | In a table with distinct keys, no entry occurs twice. |
| Listing.PermutationKeepsKeysDistinct | seed_phrase_generator.py:106 | Reordering a table with distinct keys keeps its keys distinct. |
| Listing.ListingOrder | seed_phrase_generator.py:106 | The listing shows each of the nine presets exactly once, in strictly ascending key order. |
| Listing.Block | seed_phrase_generator.py:108-110 | A preset's block begins with the line `name (key)`. It contains the line `  Technology: technology` and the line `  Supported lengths: ` followed by the rendered counts, joined by ", " in their configured order. It ends with the line `  Notes: notes`. |
| Listing.Decimals | seed_phrase_generator.py:107 | One `str(c)` per count, in the configured order. A non-negative count becomes canonical digits that read back as the count. A negative count becomes a minus sign followed by canonical digits of its magnitude. |
| Listing.ListingOf | seed_phrase_generator.py:104-112 | The blocks of a table sorted by key, joined by a blank line. The block of every entry of the table appears in the text. |
| Listing.ListedBlocksOccur | seed_phrase_generator.py:106-112 | Sorting loses no entry, so each entry's block appears in the joined listing. |
| Listing.ListTable | seed_phrase_generator.py:104-112 | The loop appends one block per sorted entry. The joined result is the table's listing, ListingOf(table). |
| Listing.ListWallets | seed_phrase_generator.py:104-112 | The listing text is the preset table's blocks, in key order, joined with blank lines. |
| Cli.LoadWordlist | seed_phrase_generator.py:156 | Loads the `--wordlist` path. A path not in the file system gives WordlistNotFound. Success happens exactly when the file holds at least 2048 non-blank lines, and then yields those trimmed lines. |
| Cli.ResolvePlan | seed_phrase_generator.py:149-175 | A successful resolution carries exactly the words the wordlist loaded, at least 2048 of them. |
| Cli.ResolveUnknownWallet | seed_phrase_generator.py:149 | An unknown wallet is refused before anything else, whatever the file system holds. |
| Cli.ResolveMissingLength | seed_phrase_generator.py:151-154 | With neither a wallet nor a count, the request is refused before the wordlist is read. |
| Cli.ResolveWordlistError | seed_phrase_generator.py:156 | With a known wallet or a count, a missing or short wordlist fails with the wordlist's own error, before the length is checked. |
| Cli.ResolveCustom | seed_phrase_generator.py:158-163 | Without a wallet, the count is used as given under the "Custom" label for both name and technology. |
| Cli.ResolveWalletDefault | seed_phrase_generator.py:172-175 | A known wallet without a count gets its first offered length, its name and its technology. |
| Cli.ResolveWalletExplicit | seed_phrase_generator.py:164-175 | A known wallet with a count succeeds exactly when the wallet offers that length. Otherwise the error names the wallet, its lengths and the count requested. |
| Cli.TrezorPlans | seed_phrase_generator.py:19-24 | Trezor resolves to 12 words by default and to 24 on request. 16 is refused, naming [12, 24]. |
| Cli.ExitCode | seed_phrase_generator.py:145-147 | The exit status is 0 exactly when the run did not fail. |
| Cli.Generate | seed_phrase_generator.py:177-182 | A failed resolution is reported unchanged. A resolved plan with a positive count yields a phrase of that many words from the loaded list, under the plan's name and technology. |
| Cli.Run | seed_phrase_generator.py:142-182 | `--list-wallets` yields the listing regardless of every other argument. Otherwise the outcome is the resolution's error, or a phrase generated for the resolved plan. |

## Left out

- Argument parsing (`parse_args`, lines 115-139) is not modelled. `Cli.Args` holds the parsed values. The default wordlist path is just a string the caller passes.
- File reading is not modelled: a file's existence and its `splitlines()` result are given, as the file system map. Which characters end a line is not modelled.
- Text.Lower and Text.Strip: only ASCII is modelled. Python's `str.lower` and `str.strip` also fold and strip non-ASCII characters.
- Phrase.RandBelow: the model states only that the index is in range. Uniformity and unpredictability are not modelled.
- Printing is not modelled. The generated report (lines 178-181) and the wording of every error message are left out; errors are datatype values.
- SortByKey compares keys only. Python sorts (key, profile) pairs, but keys are unique, so the comparison never reaches the profile dictionaries.
- `script.js`, the browser front end, is not part of this model.
- The `if args.word_count is None` check at lines 159-160 can never fire, because lines 151-154 have already refused that case. The model proves that branch unreachable rather than giving it an outcome.
- Registry: some long text constants are written as several concatenated pieces. The resulting strings equal the source's.
