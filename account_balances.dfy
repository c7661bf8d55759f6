/**
 * The account and balance state behind the site's balances page.
 *
 * The page keeps the current account and its balances in shared state (`account`,
 * `balances`) and reports failures to the MetaMask state's error slot. Each
 * refresh sends one wallet request through the snap; here the daemon's reply to
 * that request is a parameter, and the request itself is returned, so that "no
 * request is sent" is visible as `None`.
 */
module AccountBalances {
  import opened Wrappers

  /** A rejection raised by the host, the snap or the daemon; its contents are not read. */
  type DaemonError = string

  /** The daemon's account address, a tagged union; the page reads only its `Component` variant. */
  datatype Address = Component(component: string) | OtherAddress(variant: string, value: string)

  datatype Account = Account(name: string, address: Address)

  /** The reply to `accounts.get_default`: the account and its public key. */
  datatype AccountData = AccountData(account: Account, publicKey: string)

  /**
   * The account as the page stores it. Reading `.Component` of an address of any
   * other variant gives `undefined`, modelled as an absent address.
   */
  datatype AccountState = AccountState(name: string, address: Option<string>, publicKey: string)

  /** One entry of the `accounts.get_balances` reply; `tokenSymbol` is None when missing. */
  datatype RawBalance = RawBalance(tokenSymbol: Option<string>, resourceAddress: string, balance: int)

  /** A balance as the page displays it. */
  datatype BalanceEntry = BalanceEntry(name: string, address: string, balance: int)

  /** The wallet request envelope `{ method, params }`, and the token it travels with. */
  datatype Params = NoParams | BalancesParams(account: string, refresh: bool)
  datatype WalletRequest = WalletRequest(methodName: string, params: Params)
  datatype SnapCall = SendWalletRequest(token: string, request: WalletRequest)

  const AccountRequest := WalletRequest("accounts.get_default", NoParams)
  const FallbackName := "Tari"

  // ---------------------------------------------------------------------------
  // getAccount and the account projection

  /** What `getAccount` resolves to and the error it dispatches; a falsy reply is None. */
  datatype AccountFetch = AccountFetch(data: Option<AccountData>, error: Option<DaemonError>)

  function GetAccount(reply: Result<Option<AccountData>, DaemonError>): (r: AccountFetch)
    ensures reply.Failure? ==> r == AccountFetch(None, Some(reply.error))
    ensures reply.Success? ==> r == AccountFetch(reply.value, None)
    ensures r.error.Some? ==> r.data.None?
  {
    match reply
    case Failure(e) => AccountFetch(None, Some(e))
    case Success(data) => AccountFetch(data, None)
  }

  /** The `AccountState` payload built from the account data. */
  function ToAccountState(data: AccountData): (state: AccountState)
    ensures state.name == data.account.name && state.publicKey == data.publicKey
    ensures state.address.Some? <==> data.account.address.Component?
    ensures state.address.Some? ==> state.address.value == data.account.address.component
  {
    AccountState(
      data.account.name,
      if data.account.address.Component? then Some(data.account.address.component) else None,
      data.publicKey)
  }

  // ---------------------------------------------------------------------------
  // getBalances

  /** The address `getBalances` asks about: the account's, when there is one and it is non-empty. */
  function BalanceAddress(account: Option<AccountState>): (address: Option<string>)
    ensures address.Some? ==> address.value != ""
    ensures address.Some? ==> account.Some? && address == account.value.address
    ensures account.Some? && account.value.address.Some? && account.value.address.value != "" ==>
      address == account.value.address
    ensures account.None? || account.value.address.None? ==> address.None?
  {
    if account.Some? && account.value.address.Some? && account.value.address.value != "" then
      account.value.address
    else
      None
  }

  /** The request `getBalances` sends, or None when its guard returns first. */
  function BalancesCall(token: string, account: Option<AccountState>): (call: Option<SnapCall>)
    ensures call.None? <==> BalanceAddress(account).None?
    ensures call.Some? ==> call.value.token == token && call.value.request.methodName == "accounts.get_balances"
    ensures call.Some? ==> call.value.request.params == BalancesParams(BalanceAddress(account).value, true)
  {
    match BalanceAddress(account)
    case None => None
    case Some(address) =>
      Some(SendWalletRequest(token, WalletRequest("accounts.get_balances", BalancesParams(address, true))))
  }

  /** What `getBalances` resolves to and the error it dispatches. */
  datatype BalancesFetch = BalancesFetch(raw: seq<RawBalance>, error: Option<DaemonError>)

  /**
   * `getBalances` given the daemon's reply: `[]` without a request when the guard
   * fails, `[]` and an error when the request is rejected, the reply's balances otherwise.
   */
  function GetBalances(account: Option<AccountState>, reply: Result<seq<RawBalance>, DaemonError>): (r: BalancesFetch)
    ensures BalanceAddress(account).None? ==> r == BalancesFetch([], None)
    ensures BalanceAddress(account).Some? && reply.Failure? ==> r == BalancesFetch([], Some(reply.error))
    ensures BalanceAddress(account).Some? && reply.Success? ==> r == BalancesFetch(reply.value, None)
    ensures r.error.Some? ==> r.raw == [] && reply == Failure(r.error.value)
  {
    if BalanceAddress(account).None? then BalancesFetch([], None)
    else
      match reply
      case Failure(e) => BalancesFetch([], Some(e))
      case Success(raw) => BalancesFetch(raw, None)
  }

  /** Without a usable address the reply is never consulted: no request, no error, no balances. */
  lemma GuardIgnoresReply(token: string, account: Option<AccountState>,
                           reply: Result<seq<RawBalance>, DaemonError>, other: Result<seq<RawBalance>, DaemonError>)
    requires BalanceAddress(account).None?
    ensures BalancesCall(token, account).None?
    ensures GetBalances(account, reply) == GetBalances(account, other) == BalancesFetch([], None)
  {
  }

  // ---------------------------------------------------------------------------
  // The balance projection

  /** The displayed name: the token symbol, or `"Tari"` when it is missing or empty. */
  function DisplayName(symbol: Option<string>): (name: string)
    ensures name != ""
    ensures name == FallbackName || symbol == Some(name)
    ensures symbol.Some? && symbol.value != "" ==> name == symbol.value
  {
    if symbol.Some? && symbol.value != "" then symbol.value else FallbackName
  }

  /** `raw_balances.map(...)`: one entry per raw balance, in the same order. */
  function ToEntries(raw: seq<RawBalance>): (entries: seq<BalanceEntry>)
    ensures |entries| == |raw|
    ensures forall k :: 0 <= k < |raw| ==>
      entries[k].name == DisplayName(raw[k].tokenSymbol) &&
      entries[k].address == raw[k].resourceAddress &&
      entries[k].balance == raw[k].balance
    ensures NamedEntries(entries)
  {
    if raw == [] then []
    else [BalanceEntry(DisplayName(raw[0].tokenSymbol), raw[0].resourceAddress, raw[0].balance)] + ToEntries(raw[1..])
  }

  /** Every displayed entry has a name. */
  ghost predicate NamedEntries(entries: seq<BalanceEntry>) {
    forall k :: 0 <= k < |entries| ==> entries[k].name != ""
  }

  // ---------------------------------------------------------------------------
  // The page's shared state and its two refresh operations

  class BalancesPage {
    /** The wallet token the snap issued; read, never changed, by these operations. */
    const token: string
    var account: Option<AccountState>
    var balances: seq<BalanceEntry>
    /** The MetaMask state's error slot, where failed requests are reported. */
    var error: Option<DaemonError>

    ghost predicate Valid()
      reads this
    {
      NamedEntries(balances)
    }

    constructor (token: string)
      ensures Valid()
      ensures this.token == token && account == None && balances == [] && error == None
    {
      this.token := token;
      account := None;
      balances := [];
      error := None;
    }

    /**
     * `refreshAccountBalances` for one round: fetch, project, and replace the
     * balances wholesale only when the projected list is non-empty.
     */
    method RefreshAccountBalances(reply: Result<seq<RawBalance>, DaemonError>) returns (call: Option<SnapCall>)
      requires Valid()
      modifies this`balances, this`error
      ensures Valid()
      ensures call == BalancesCall(token, account)
      ensures var fetched := GetBalances(account, reply);
        balances == (if fetched.raw != [] then ToEntries(fetched.raw) else old(balances)) &&
        error == (if fetched.error.Some? then fetched.error else old(error))
      ensures call.None? ==> balances == old(balances) && error == old(error)
      ensures old(balances) != [] ==> balances != []
    {
      call := BalancesCall(token, account);
      var fetched := GetBalances(account, reply);
      if fetched.error.Some? {
        error := fetched.error;
      }
      var entries := ToEntries(fetched.raw);
      if |entries| > 0 {
        balances := entries;
      }
    }

    /**
     * `refreshAccountData`: fetch the default account; on a truthy reply store its
     * projection and refresh the balances for it. A failed or falsy reply leaves the
     * account and the balances as they were.
     */
    method RefreshAccountData(accountReply: Result<Option<AccountData>, DaemonError>,
                              balancesReply: Result<seq<RawBalance>, DaemonError>)
      returns (calls: seq<SnapCall>)
      requires Valid()
      modifies this`account, this`balances, this`error
      ensures Valid()
      ensures |calls| >= 1 && calls[0] == SendWalletRequest(token, AccountRequest)
      ensures accountReply.Failure? ==> error == Some(accountReply.error)
      ensures accountReply.Success? && accountReply.value.None? ==> error == old(error)
      ensures GetAccount(accountReply).data.None? ==>
        calls == [SendWalletRequest(token, AccountRequest)] &&
        account == old(account) && balances == old(balances)
      ensures GetAccount(accountReply).data.Some? ==>
        account == Some(ToAccountState(GetAccount(accountReply).data.value))
      ensures GetAccount(accountReply).data.Some? ==>
        var fetched := GetBalances(account, balancesReply);
        calls == [SendWalletRequest(token, AccountRequest)] +
                 (if BalancesCall(token, account).Some? then [BalancesCall(token, account).value] else []) &&
        balances == (if fetched.raw != [] then ToEntries(fetched.raw) else old(balances)) &&
        error == (if fetched.error.Some? then fetched.error else old(error))
    {
      calls := [SendWalletRequest(token, AccountRequest)];
      var fetched := GetAccount(accountReply);
      if fetched.error.Some? {
        error := fetched.error;
      }
      if fetched.data.Some? {
        account := Some(ToAccountState(fetched.data.value));
        var call := RefreshAccountBalances(balancesReply);
        if call.Some? {
          calls := calls + [call.value];
        }
      }
    }
  }

  /**
   * A session as the page runs it: no balance request before an account is known,
   * the account and its balances after a successful account fetch, and an empty
   * balance reply that leaves the shown balances in place.
   */
  method Session(token: string, data: AccountData, raw: seq<RawBalance>)
    requires data.account.address == Component("0123") && raw != []
  {
    var page := new BalancesPage(token);
    var call := page.RefreshAccountBalances(Success(raw));
    assert call.None? && page.balances == [];

    var calls := page.RefreshAccountData(Success(Some(data)), Success(raw));
    assert page.account.value.address == Some("0123");
    assert calls[1].request.params == BalancesParams("0123", true);
    assert page.balances == ToEntries(raw);

    call := page.RefreshAccountBalances(Success([]));
    assert call.Some? && page.balances == ToEntries(raw);

    call := page.RefreshAccountBalances(Failure("daemon down"));
    assert page.balances == ToEntries(raw) && page.error == Some("daemon down");
  }
}
