/** Option and Result values, and the failures the seed phrase generator reports. */
module Common {

  /** An optional value: a command-line option that may be absent, a lookup that may miss. */
  datatype Option<+T> = None | Some(value: T)

  /** Either a value or the error that stopped the computation. */
  datatype Result<+T> = Ok(value: T) | Err(error: Error)

  /** Every way one invocation of the generator can fail. Each failure ends the
      invocation with a non-zero exit status; none is retried. */
  datatype Error =
    | UnknownWallet(name: string)          // KeyError: the wallet key is not in the registry
    | MissingLength                        // SystemExit: neither --wallet nor --word-count given
    | WordlistNotFound                     // FileNotFoundError: the wordlist path does not exist
    | WordlistTooShort(found: nat)         // ValueError: fewer than 2048 usable words
    | UnsupportedCount(wallet: string, supported: seq<int>, requested: int)
                                           // SystemExit: the wallet does not offer that length
    | NonPositiveCount(requested: int)       // ValueError: a phrase needs at least one word
    | EmptyRange                           // ValueError from the random source: bound must be positive
}
