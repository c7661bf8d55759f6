# Tari snap site: byte-array decoding, snap selection and balance state

This project models the parts of the Tari wallet site that hold decisions of their
own. The rest of the site forwards requests to the MetaMask snap host or renders UI.

- **Byte-array decoding** (`HexDecoding`, `hex_decoding.dfy`). `hex_to_int_array`
  collects the pieces matched by the global, case-insensitive pattern
  `[0-9a-z]{2}` and reads each one with `parseInt(_, 16)`.
  `resource_address_to_int_array` first removes the first occurrence of
  `resource_`. In the model, `null` is `None` for the whole array and `NaN` is
  `None` for one element. The pattern scan is a recursive function. It is proved
  equal to a reference definition of a global match: take the leftmost match,
  then continue after it. The decoder is also proved against an encoder. Every
  non-empty byte list, written as lower-case hex, decodes back to itself.
- **Snap selection** (`SnapLocator`, `snap_locator.dfy`). `isLocalSnap` is a
  prefix test. `getSnap` keeps the first installed descriptor whose id is the
  expected one and, when a non-empty version is asked for, whose version is
  that one. A failed query counts as no snap.
- **Account and balance state** (`AccountBalances`, `account_balances.dfy`). The
  page's shared state is the class `BalancesPage`. Its fields are `account`,
  `balances` and the MetaMask error slot `error`. Its two methods take the
  daemon's reply as a parameter and return the request they send, so that "no
  request" shows up as `None`. Balances are replaced wholesale only by a
  non-empty list. Every displayed balance has a non-empty name. Once balances
  are shown, they never become empty again.

`Wrappers` (`wrappers.dfy`) holds the `Option` and `Result` types.

Behaviour of the code that is easy to miss:

- An odd-length hex string is not rejected. The pattern takes exactly two
  characters per piece, so the last character is dropped and `"0a1"` decodes
  to `[10]` (`HexDecoding.ExampleOddLength`).
- Non-hex characters do not make the decode fail. Any two ASCII letters or
  digits match. Such a pair reads as `NaN`, and the array as a whole is not
  `null` (`HexDecoding.ExampleNaNAndNull`).
- With radix 16, `parseInt` drops a leading `0x`/`0X`. So the piece `"0x"`
  reads as `NaN`, not as `0`. This follows section 19.2.5 of ECMA-262
  (`parseInt`). `HexDecoding.ParseHex` states it.
- The comment at packages/site/src/utils/snap.ts:130 speaks of pieces of one or
  two characters, which would decode `"0a1"` to `[10, 1]`. The pattern on
  line 131 takes exactly two, and the model follows the pattern.

## Model

| member | source | states |
|---|---|---|
| `HexDecoding.Scan` | packages/site/src/utils/snap.ts:130-131 | every piece the pattern scan collects is two letters or digits, and there are at most half as many pieces as characters after the start index |
| `HexDecoding.FirstPairFrom` | packages/site/src/utils/snap.ts:131 | finds the leftmost index at or after `i` where the pattern matches, or reports that no later index matches |
| `HexDecoding.ScanIsGlobalMatch` | packages/site/src/utils/snap.ts:131 | the character scan yields exactly the leftmost, non-overlapping matches in left-to-right order, as a global regular-expression match does |
| `HexDecoding.ScanEmptyIff` | packages/site/src/utils/snap.ts:131-134 | the scan finds nothing if and only if no two adjacent characters from the start index on are both letters or digits |
| `HexDecoding.ScanAllAlnum` | packages/site/src/utils/snap.ts:130-131 | on letters and digits only, the scan cuts consecutive pairs, `⌊n/2⌋` of them, and drops an odd last character |
| `HexDecoding.ScanUpToCase` | packages/site/src/utils/snap.ts:131 | two strings that differ only in ASCII letter case are cut into the same number of pieces, and the pieces differ only in case |
| `HexDecoding.HexRunLength` | packages/site/src/utils/snap.ts:135 | the run of leading hex digits that `parseInt(_, 16)` reads ends at the first non-digit or at the end |
| `HexDecoding.ParseHex` | packages/site/src/utils/snap.ts:135 | `parseInt(_, 16)` on a piece gives NaN exactly when the first character is no hex digit or the piece is `0x`/`0X`; otherwise `16·hi+lo`, or `hi` alone when the second character is no hex digit; always within 0..255 |
| `HexDecoding.HexToIntArray` | packages/site/src/utils/snap.ts:129-137 | a non-null result has between one and `⌊|s|/2⌋` elements, and every element that is not NaN lies in 0..255 |
| `HexDecoding.DecodeNullIff` | packages/site/src/utils/snap.ts:131-134 | the result is `null` if and only if the string has no two adjacent ASCII letters or digits |
| `HexDecoding.DecodeInMatchOrder` | packages/site/src/utils/snap.ts:131-136 | the result is `null` when the global match is empty, and otherwise the `parseInt` value of each match, in order |
| `HexDecoding.DecodeAllAlnum` | packages/site/src/utils/snap.ts:131-135 | a string of two or more letters and digits decodes to exactly `⌊|s|/2⌋` elements, element `k` read from the pair at `2k` |
| `HexDecoding.DecodeDropsOddLast` | packages/site/src/utils/snap.ts:130-131 | in a string of letters and digits of any odd length, including one, the last character is dropped, not rejected: the string decodes like the string without it |
| `HexDecoding.DecodeHexDigits` | packages/site/src/utils/snap.ts:135 | a string of two or more hex digits decodes to `⌊|s|/2⌋` elements, each `16·hi+lo` of its pair and within 0..255 |
| `HexDecoding.DecodeCaseInsensitive` | packages/site/src/utils/snap.ts:131-135 | strings that differ only in ASCII letter case decode to the same result |
| `HexDecoding.DecodeInvertsToHex` | packages/site/src/utils/snap.ts:129-137 | every non-empty byte list, written as two lower-case hex digits per byte, decodes back to the same bytes in order, with no NaN |
| `HexDecoding.ExampleHex` | packages/site/src/utils/snap.ts:129-137 | `"0aff"` decodes to `[10, 255]` |
| `HexDecoding.ExampleOddLength` | packages/site/src/utils/snap.ts:130-136 | `"0a1"` decodes to `[10]` |
| `HexDecoding.ExampleNaNAndNull` | packages/site/src/utils/snap.ts:131-135 | `"zz"` and `"0x"` decode to `[NaN]`, and `"a"` decodes to `null` |
| `HexDecoding.IndexOf` | packages/site/src/utils/snap.ts:125 | returns the first index at or after `from` where the pattern occurs, or None when it occurs nowhere from there on |
| `HexDecoding.RemoveFirst` | packages/site/src/utils/snap.ts:125 | a string without the pattern is returned unchanged; otherwise the result is the string with exactly the first (leftmost) occurrence cut out |
| `HexDecoding.RemoveFirstOccurrence` | packages/site/src/utils/snap.ts:125 | in `a + pat + b` with no earlier occurrence, removal gives `a + b`, so only the first occurrence goes |
| `HexDecoding.ResourceAddressToIntArray` | packages/site/src/utils/snap.ts:124-127 | an address without `resource_` decodes exactly as `hex_to_int_array` decodes it |
| `HexDecoding.ResourceAddressStripsFirstPrefix` | packages/site/src/utils/snap.ts:124-126 | `a + "resource_" + h`, with no earlier `resource_`, decodes like `a + h`; so `"resource_" + h` decodes like `h` |
| `HexDecoding.ExampleResourceAddress` | packages/site/src/utils/snap.ts:124-127 | `"resource_0aff"` decodes to `[10, 255]` |
| `SnapLocator.IsLocalSnap` | packages/site/src/utils/snap.ts:121 | true if and only if the id's first six characters are `local:` |
| `SnapLocator.Selects` | packages/site/src/utils/snap.ts:46-47 | a selected descriptor has the expected id and, when a non-empty version is asked for, that version; a descriptor with the expected id is selected when no version or `""` is asked for, or when its version is the one asked for |
| `SnapLocator.FindFrom` | packages/site/src/utils/snap.ts:45-48 | returns the first selected descriptor's index and nothing earlier is selected; None exactly when no descriptor is selected |
| `SnapLocator.GetSnap` | packages/site/src/utils/snap.ts:41-53 | a failed query gives no snap; a snap that is returned is an installed one and is selected; no snap is returned only when none is selected |
| `SnapLocator.GetSnapIsFirst` | packages/site/src/utils/snap.ts:45-48 | when descriptor `j` is selected, a snap is found, and it stands at index `j` or earlier |
| `SnapLocator.NoVersionMatchesAnyVersion` | packages/site/src/utils/snap.ts:47 | an absent version and `""` select the same snap, which exists exactly when some descriptor has the expected id |
| `AccountBalances.GetAccount` | packages/site/src/pages/index.tsx:45-59 | a rejected request gives no account data and records the rejection; a reply is passed on as the account data with no error |
| `AccountBalances.ToAccountState` | packages/site/src/pages/index.tsx:86-90 | the stored account keeps the name and public key, and it has an address exactly when the daemon's address is a `Component` |
| `AccountBalances.BalanceAddress` | packages/site/src/pages/index.tsx:63 | the address used for balances is the account's own address, present exactly when there is an account whose address is present and non-empty |
| `AccountBalances.BalancesCall` | packages/site/src/pages/index.tsx:63-74 | no request is sent exactly when the guard fails; otherwise the request is `accounts.get_balances` with the account's address, `refresh` true and the page's token |
| `AccountBalances.GetBalances` | packages/site/src/pages/index.tsx:61-81 | without a usable address, `[]` and no error; with one, a rejection gives `[]` and records the error, and a reply gives its list with no error |
| `AccountBalances.GuardIgnoresReply` | packages/site/src/pages/index.tsx:63-65 | without a usable address, no request is made and any two daemon replies give the same result, `[]` with no error |
| `AccountBalances.DisplayName` | packages/site/src/pages/index.tsx:103 | the name is never empty; it is a non-empty token symbol, and `"Tari"` otherwise |
| `AccountBalances.ToEntries` | packages/site/src/pages/index.tsx:103 | one entry per raw balance, in the same order: the display name, the resource address and the amount; all names are non-empty |
| `AccountBalances.BalancesPage.RefreshAccountBalances` | packages/site/src/pages/index.tsx:101-110 | sends the guarded request; replaces the balances by the projected list only when it is non-empty and keeps them otherwise; records a rejection; keeps balances non-empty once they are non-empty, and keeps every name non-empty |
| `AccountBalances.BalancesPage.RefreshAccountData` | packages/site/src/pages/index.tsx:83-99 | always requests `accounts.get_default`; on a truthy reply, stores its projection and refreshes the balances for that account; on a rejected or falsy reply, leaves the account and balances as they were; a rejection is recorded, and a falsy reply leaves the error slot unchanged |

## Left out

- The host request wrappers `getSnaps`, `connectSnap`, `setTariWallet`,
  `getTariWalletToken`, `getAccountData`, `getTariWalletPublicKey` and
  `sendWalletRequest` (packages/site/src/utils/snap.ts:11-119). They are calls
  into the MetaMask snap host. Their replies are parameters of the model:
  `GetSnap`'s `installed`, and the `reply` parameters of `BalancesPage`.
- The fixed daemon URL and the fixed permission list sent by those wrappers.
  The model never issues those requests.
- `defaultSnapOrigin` comes from the site's configuration file, which is not
  part of this model. It is the parameter `origin`.
- `Object.values` ordering: the installed snaps arrive as a sequence in the
  order the host's object lists them.
- The self-rescheduling 4-second poll and the two `useEffect` triggers
  (packages/site/src/pages/index.tsx:112, 115-123). These are timer and
  scheduling behaviour. `RefreshAccountBalances` models one round of the poll.
- BalancesPage.RefreshAccountData: the balance refresh it triggers reads the
  newly stored account. In the page, the direct call at
  packages/site/src/pages/index.tsx:97 reads the account captured at render
  time. The refresh with the new account comes from the effect at lines
  121-123. The model keeps only that net effect.
- Each poll chain started at packages/site/src/pages/index.tsx:112 keeps reading
  the state of the render that started it, so an older chain may ask about an
  older account. The model has one current state and no chains.
- A balance reply without a `balances` field makes `.map` throw in the page.
  The model's reply always carries a list.
- Logging to the console, all JSX rendering, dialogs and the clipboard write
  (packages/site/src/pages/index.tsx:125-221).
- JavaScript numbers: amounts are unbounded integers, and `NaN` is `None`.
- `HexDecoding.ParseHex` models `parseInt(_, 16)` only on the two-character
  pieces of the pattern. Those pieces never hold white space or a sign, so the
  white-space and sign steps of `parseInt` are not modelled.
- Strings are sequences of Unicode characters, not UTF-16 code units. The
  pattern's class is ASCII only, so the pieces and their values do not depend
  on this. Case folding is ASCII only, as the pattern's `i` flag is without
  the `u` flag.
