/** The command surface (main): the --list-wallets short-circuit, and the
    decision table that reconciles an optional wallet with an optional word
    count into the plan a phrase is generated for. */
module Cli {
  import opened Common
  import opened Text
  import opened Registry
  import Listing
  import Wordlist
  import Phrase

  /** What the argument parser yields: --wallet, --word-count, --wordlist
      (already defaulted to data/demo_wordlist.txt) and --list-wallets. */
  datatype Args = Args(
    wallet: Option<string>,
    wordCount: Option<int>,
    wordlist: string,
    listWallets: bool)

  /** The files the invocation can see: each existing path with the lines its
      text splits into. */
  type FileSystem = map<string, seq<string>>

  function ReadLines(fs: FileSystem, path: string): seq<string>
  {
    if path in fs then fs[path] else []
  }

  /** The wordlist named on the command line, loaded and checked. */
  function LoadWordlist(args: Args, fs: FileSystem): (r: Result<seq<string>>)
    ensures args.wordlist !in fs ==> r == Err(WordlistNotFound)
    ensures r.Ok? <==> args.wordlist in fs && |Wordlist.NonBlankLines(fs[args.wordlist])| >= Wordlist.MinWords
    ensures r.Ok? ==> r.value == Wordlist.NonBlankLines(fs[args.wordlist])
  {
    Wordlist.EnsureWordlist(args.wordlist in fs, ReadLines(fs, args.wordlist))
  }

  /** Name of the wallet, technology label and phrase length. */
  datatype Plan = Plan(walletName: string, technology: string, wordCount: int)

  /** A plan together with the words it will draw from. */
  datatype Resolved = Resolved(plan: Plan, words: seq<string>)

  const CustomLabel: string := "Custom"

  /** The part of main between parsing and generating. Failures are reported
      in the order the program checks them: an unknown wallet, then a request
      that fixes no length, then the wordlist, and only then a length the
      wallet does not support. */
  function ResolvePlan(args: Args, fs: FileSystem): (r: Result<Resolved>)
    ensures r.Ok? ==> LoadWordlist(args, fs) == Ok(r.value.words) && |r.value.words| >= Wordlist.MinWords
  {
    match SelectWalletProfile(args.wallet)
    case Err(e) => Err(e)
    case Ok(profile) =>
      if profile.None? && args.wordCount.None? then Err(MissingLength)
      else
        match LoadWordlist(args, fs)
        case Err(e) => Err(e)
        case Ok(words) =>
          if profile.None? then
            // The program checks for a missing count once more here; the test
            // above has already ruled that out.
            if args.wordCount.None? then assert false; Err(MissingLength)
            else Ok(Resolved(Plan(CustomLabel, CustomLabel, args.wordCount.value), words))
          else
            var p := profile.value;
            if args.wordCount.Some? then
              if args.wordCount.value !in p.wordCounts then
                Err(UnsupportedCount(p.name, p.wordCounts, args.wordCount.value))
              else
                Ok(Resolved(Plan(p.name, p.technology, args.wordCount.value), words))
            else
              Ok(Resolved(Plan(p.name, p.technology, p.wordCounts[0]), words))
  }

  /** What one invocation ends with. */
  datatype Outcome =
    | Listed(text: string)
    | Generated(plan: Plan, phrase: seq<string>)
    | Failed(error: Error)

  /** The process exit status: 0 on success, including the listing. */
  function ExitCode(o: Outcome): (code: int)
    ensures code == 0 <==> !o.Failed?
  {
    if o.Failed? then 1 else 0
  }

  /** What a resolution leads to once the phrase is drawn. */
  ghost predicate GenerationOutcome(resolved: Result<Resolved>, outcome: Outcome)
  {
    match resolved
    case Err(e) => outcome == Failed(e)
    case Ok(res) =>
      && (res.plan.wordCount <= 0 ==> outcome == Failed(NonPositiveCount(res.plan.wordCount)))
      && (res.plan.wordCount > 0 && |res.words| == 0 ==> outcome == Failed(EmptyRange))
      && (res.plan.wordCount > 0 && |res.words| > 0 ==>
            && outcome.Generated?
            && outcome.plan == res.plan
            && |outcome.phrase| == res.plan.wordCount
            && forall w :: w in outcome.phrase ==> w in res.words)
  }

  /** main: list the presets, or resolve a plan and generate its phrase. */
  method Run(args: Args, fs: FileSystem) returns (outcome: Outcome)
    // the listing depends on neither the wallet, the count nor the file system
    ensures args.listWallets ==> outcome == Listed(Listing.Listing())
    ensures !args.listWallets ==> GenerationOutcome(ResolvePlan(args, fs), outcome)
  {
    if args.listWallets {
      var text := Listing.ListWallets();
      return Listed(text);
    }
    outcome := Generate(ResolvePlan(args, fs));
  }

  /** The end of main: refuse a failed resolution, otherwise draw the phrase. */
  method Generate(resolved: Result<Resolved>) returns (outcome: Outcome)
    ensures GenerationOutcome(resolved, outcome)
  {
    if resolved.Err? {
      return Failed(resolved.error);
    }
    var plan := resolved.value.plan;
    var words := resolved.value.words;
    var phrase := Phrase.GenerateSeedPhrase(words, plan.wordCount);
    if phrase.Err? {
      return Failed(phrase.error);
    }
    outcome := Generated(plan, phrase.value);
  }

  /** Row 1: an unknown wallet name is refused first, before the wordlist is
      looked at. */
  lemma ResolveUnknownWallet(args: Args, fs: FileSystem)
    requires args.wallet.Some? && !IsRegistered(Lower(args.wallet.value))
    ensures ResolvePlan(args, fs) == Err(UnknownWallet(args.wallet.value))
  {
  }

  /** Row 2: with neither a wallet nor a count the request is refused, whatever
      the file system holds. */
  lemma ResolveMissingLength(args: Args, fs: FileSystem)
    requires args.wallet.None? && args.wordCount.None?
    ensures ResolvePlan(args, fs) == Err(MissingLength)
  {
  }

  /** Row 3: a request that names a known wallet or a count fails with the
      wordlist's own error when the wordlist is missing or too short. */
  lemma ResolveWordlistError(args: Args, fs: FileSystem)
    requires args.wallet.Some? ==> IsRegistered(Lower(args.wallet.value))
    requires args.wallet.Some? || args.wordCount.Some?
    requires LoadWordlist(args, fs).Err?
    ensures ResolvePlan(args, fs) == Err(LoadWordlist(args, fs).error)
  {
  }

  /** Row 4: without a wallet the count is used as given, even a non-positive
      one, under the Custom label. */
  lemma ResolveCustom(args: Args, fs: FileSystem)
    requires args.wallet.None? && args.wordCount.Some? && LoadWordlist(args, fs).Ok?
    ensures ResolvePlan(args, fs)
      == Ok(Resolved(Plan(CustomLabel, CustomLabel, args.wordCount.value), LoadWordlist(args, fs).value))
  {
  }

  /** Row 5: a known wallet without a count gets the wallet's first length,
      name and technology. */
  lemma ResolveWalletDefault(args: Args, fs: FileSystem, i: int)
    requires 0 <= i < |Entries()| && args.wallet.Some? && Lower(args.wallet.value) == Entries()[i].key
    requires args.wordCount.None? && LoadWordlist(args, fs).Ok?
    ensures var p := Entries()[i].profile;
      ResolvePlan(args, fs) == Ok(Resolved(Plan(p.name, p.technology, p.wordCounts[0]), LoadWordlist(args, fs).value))
  {
    SelectAnySpelling(i, args.wallet.value);
  }

  /** Row 6: a known wallet with a count accepts it exactly when the wallet
      offers that length, and otherwise names the lengths it offers. */
  lemma ResolveWalletExplicit(args: Args, fs: FileSystem, i: int)
    requires 0 <= i < |Entries()| && args.wallet.Some? && Lower(args.wallet.value) == Entries()[i].key
    requires args.wordCount.Some? && LoadWordlist(args, fs).Ok?
    ensures var p := Entries()[i].profile;
      var n := args.wordCount.value;
      ResolvePlan(args, fs) == if n in p.wordCounts
        then Ok(Resolved(Plan(p.name, p.technology, n), LoadWordlist(args, fs).value))
        else Err(UnsupportedCount(p.name, p.wordCounts, n))
  {
    SelectAnySpelling(i, args.wallet.value);
  }

  /** Trezor without a count resolves to 12 words; with 24 it resolves to 24;
      with 16 it is refused, naming 12 and 24. */
  lemma TrezorPlans(fs: FileSystem, path: string)
    requires path in fs && |Wordlist.NonBlankLines(fs[path])| >= Wordlist.MinWords
    ensures var r := ResolvePlan(Args(Some("trezor"), None, path, false), fs);
      r.Ok? && r.value.plan == Plan("Trezor", "BIP39", 12)
    ensures var r := ResolvePlan(Args(Some("trezor"), Some(24), path, false), fs);
      r.Ok? && r.value.plan == Plan("Trezor", "BIP39", 24)
    ensures ResolvePlan(Args(Some("trezor"), Some(16), path, false), fs)
      == Err(UnsupportedCount("Trezor", [12, 24], 16))
  {
    assert Lower("trezor") == "trezor";
    ResolveWalletDefault(Args(Some("trezor"), None, path, false), fs, 1);
    ResolveWalletExplicit(Args(Some("trezor"), Some(24), path, false), fs, 1);
    ResolveWalletExplicit(Args(Some("trezor"), Some(16), path, false), fs, 1);
  }
}
