/** The static table of wallet presets (WALLET_PROFILES) and the
    case-insensitive lookup of one preset by name (select_wallet_profile). */
module Registry {
  import opened Common
  import opened Text

  /** One wallet preset. The first entry of wordCounts is the preset's default
      phrase length. */
  datatype WalletProfile = WalletProfile(
    name: string,
    technology: string,
    wordCounts: seq<int>,
    notes: string)

  /** A key of the table together with the preset stored under it. */
  datatype Entry = Entry(key: string, profile: WalletProfile)

  /** At least one length, and every length positive. */
  predicate ValidCounts(counts: seq<int>)
  {
    |counts| > 0 && forall k :: 0 <= k < |counts| ==> counts[k] > 0
  }

  /** No key is stored twice. */
  predicate KeysDistinct(es: seq<Entry>)
  {
    forall i, j :: 0 <= i < j < |es| ==> es[i].key != es[j].key
  }

  /** The table's invariant: keys are unique and lower-case, and every preset
      has a default length. */
  predicate WellFormed(es: seq<Entry>)
  {
    && KeysDistinct(es)
    && (forall i :: 0 <= i < |es| ==> IsLowerCase(es[i].key))
    && (forall i :: 0 <= i < |es| ==> ValidCounts(es[i].profile.wordCounts))
  }

  /** The presets, in the order the table lists them. Long texts are written
      as concatenations of short pieces. */
  function Entries(): (es: seq<Entry>)
    ensures |es| == 9 && WellFormed(es)
  {
    // the table as written satisfies its invariant
    assert forall i, j :: 0 <= i < j < 9 ==> KeyAt(i) != KeyAt(j);
    assert forall i :: 0 <= i < 9 ==> IsLowerCase(KeyAt(i));
    assert forall i :: 0 <= i < 9 ==> ValidCounts(CountsAt(i));
    seq(9, i requires 0 <= i < 9 => Entry(KeyAt(i), ProfileAt(i)))
  }

  function KeyAt(i: int): string
    requires 0 <= i < 9
  {
    match i
    case 0 => "ledger"
    case 1 => "trezor"
    case 2 => "metamask"
    case 3 => "trust"
    case 4 => "coinbase"
    case 5 => "keystone"
    case 6 => "safe"
    case 7 => "bitbox"
    case _ => "edge"
  }

  /** The preset stored under the i-th key. Each field comes from its own
      column below, so reasoning about one field does not unfold the texts of
      the others. */
  function ProfileAt(i: int): WalletProfile
    requires 0 <= i < 9
  {
    WalletProfile(NameAt(i), TechnologyAt(i), CountsAt(i), NotesAt(i))
  }

  function NameAt(i: int): string
    requires 0 <= i < 9
  {
    match i
    case 0 => "Ledger"
    case 1 => "Trezor"
    case 2 => "MetaMask"
    case 3 => "Trust Wallet"
    case 4 => "Coinbase Wallet"
    case 5 => "Keystone"
    case 6 => "Safe (formerly " + "Gnosis Safe)"
    case 7 => "BitBox02"
    case _ => "Edge Wallet"
  }

  function TechnologyAt(i: int): string
    requires 0 <= i < 9
  {
    match i
    case 5 => "BIP39 or " + "SLIP39 (Shamir)"
    case 8 => "Edge Mnemonic"
    case _ => "BIP39"
  }

  function CountsAt(i: int): seq<int>
    requires 0 <= i < 9
  {
    match i
    case 0 => [24]
    case 1 => [12, 24]
    case 5 => [12, 24]
    case 7 => [12, 24]
    case _ => [12]
  }

  function NotesAt(i: int): string
    requires 0 <= i < 9
  {
    match i
    case 0 => "Hardware wallet with " + "optional passphrase support."
    case 1 => "Supports 12 or 24-word " + "seed phrases."
    case 2 => "Browser wallet that uses " + "12-word mnemonics."
    case 3 => "Mobile wallet with 12-word " + "recovery phrases."
    case 4 => "Coinbase's self-custody " + "wallet."
    case 5 => "Air-gapped hardware wallet; " + "Shamir backups require " + "specialized handling."
    case 6 => "Multi-signature smart " + "contract wallet."
    case 7 => "Swiss-made hardware wallet."
    case _ => "Uses Edge's own mnemonic " + "scheme but length aligns " + "with BIP39."
  }

  /** dict.get: the preset stored under key, if any. */
  function Get(es: seq<Entry>, key: string): (r: Option<WalletProfile>)
    ensures r.Some? <==> exists i :: 0 <= i < |es| && es[i].key == key
    ensures r.Some? ==> exists i :: 0 <= i < |es| && es[i] == Entry(key, r.value)
  {
    if es == [] then None
    else if es[0].key == key then Some(es[0].profile)
    else
      var r := Get(es[1..], key);
      assert forall i :: 1 <= i < |es| ==> es[i] == es[1..][i - 1];
      r
  }

  /** In a table with unique keys, Get finds the very preset stored under a key. */
  lemma {:induction false} GetStored(es: seq<Entry>, i: int)
    requires KeysDistinct(es) && 0 <= i < |es|
    ensures Get(es, es[i].key) == Some(es[i].profile)
  {
    if i > 0 {
      assert es[0].key != es[i].key;
      assert KeysDistinct(es[1..]) by {
        forall a, b | 0 <= a < b < |es| - 1 ensures es[1..][a].key != es[1..][b].key {
          assert es[1..][a] == es[a + 1] && es[1..][b] == es[b + 1];
        }
      }
      GetStored(es[1..], i - 1);
    }
  }

  ghost predicate IsRegistered(key: string)
  {
    exists i :: 0 <= i < |Entries()| && Entries()[i].key == key
  }

  /** select_wallet_profile: no name gives no preset; otherwise the name is
      folded to lower case and must be a key of the table. */
  function SelectWalletProfile(name: Option<string>): (r: Result<Option<WalletProfile>>)
    ensures name.None? ==> r == Ok(None)
    ensures name.Some? ==> (r.Ok? <==> IsRegistered(Lower(name.value)))
    ensures name.Some? && r.Ok? ==>
      r.value.Some? && exists i :: 0 <= i < |Entries()| && Entries()[i] == Entry(Lower(name.value), r.value.value)
    ensures name.Some? && r.Err? ==> r.error == UnknownWallet(name.value)
    ensures r.Ok? && r.value.Some? ==> ValidCounts(r.value.value.wordCounts)
  {
    match name
    case None => Ok(None)
    case Some(n) =>
      match Get(Entries(), Lower(n))
      case None => Err(UnknownWallet(n))
      case Some(p) => Ok(Some(p))
  }

  /** Every preset is reached by its own key, and by any spelling of it that
      differs only in letter case. */
  lemma SelectAnySpelling(i: int, name: string)
    requires 0 <= i < |Entries()| && Lower(name) == Entries()[i].key
    ensures SelectWalletProfile(Some(name)) == Ok(Some(Entries()[i].profile))
  {
    GetStored(Entries(), i);
  }

  /** Every preset is reached by its own key. */
  lemma SelectByKey(i: int)
    requires 0 <= i < |Entries()|
    ensures SelectWalletProfile(Some(Entries()[i].key)) == Ok(Some(Entries()[i].profile))
  {
    LowerOfLowerCase(Entries()[i].key);
    SelectAnySpelling(i, Entries()[i].key);
  }

  /** Lookup ignores letter case: two names with the same lower-case form
      select the same preset or are both rejected. */
  lemma SelectIgnoresCase(a: string, b: string)
    requires Lower(a) == Lower(b)
    ensures SelectWalletProfile(Some(a)).Ok? == SelectWalletProfile(Some(b)).Ok?
    ensures SelectWalletProfile(Some(a)).Ok? ==> SelectWalletProfile(Some(a)) == SelectWalletProfile(Some(b))
  {
  }

  /** An unknown name is never answered with a preset. */
  lemma SelectUnknown(name: string)
    requires forall i :: 0 <= i < |Entries()| ==> Entries()[i].key != Lower(name)
    ensures SelectWalletProfile(Some(name)) == Err(UnknownWallet(name))
  {
  }

  /** The Trezor preset, asked for in capitals, defaults to 12 words and also offers 24. */
  lemma TrezorPreset()
    ensures SelectWalletProfile(Some("TREZOR")).Ok?
    ensures SelectWalletProfile(Some("TREZOR")).value == Some(ProfileAt(1))
    ensures ProfileAt(1).name == "Trezor" && ProfileAt(1).wordCounts == [12, 24]
  {
    assert Lower("TREZOR") == "trezor";
    SelectAnySpelling(1, "TREZOR");
  }
}
