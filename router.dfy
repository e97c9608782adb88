/**
 * Routing of a finished message to a configured account: the first account
 * whose address equals the recipient exactly, otherwise the first account.
 */
module Router {
  import opened Wrappers

  /** One configured destination: a routing address and its Telegram bot and chat. */
  datatype Account = Account(address: string, telegramBotKey: string, telegramChatId: string)

  /** The first account whose address equals `address` (the iterator's `find`). */
  function FindMatch(accounts: seq<Account>, address: string): (r: Option<Account>)
    ensures r.Some? ==> r.value in accounts && r.value.address == address
    ensures r.None? ==> forall a :: a in accounts ==> a.address != address
  {
    if accounts == [] then None
    else if accounts[0].address == address then Some(accounts[0])
    else FindMatch(accounts[1..], address)
  }

  /**
   * `find_account`: the first matching account, else the first account of
   * the list; `None` only when the list is empty.
   */
  function FindAccount(accounts: seq<Account>, address: string): (r: Option<Account>)
    ensures r.None? <==> accounts == []
    ensures r.Some? ==> r.value in accounts
    ensures r.Some? && r.value.address != address ==> r.value == accounts[0]
  {
    match FindMatch(accounts, address)
    case Some(a) => Some(a)
    case None => if accounts == [] then None else Some(accounts[0])
  }

  /** Account `i` is the first whose address equals `address`. */
  predicate IsFirstMatch(accounts: seq<Account>, address: string, i: int) {
    0 <= i < |accounts| && accounts[i].address == address &&
    forall j :: 0 <= j < i ==> accounts[j].address != address
  }

  /** When account `i` is the first whose address matches, it is the one chosen. */
  lemma {:induction false} FindAccountFirstMatch(accounts: seq<Account>, address: string, i: nat)
    requires IsFirstMatch(accounts, address, i)
    ensures FindMatch(accounts, address) == Some(accounts[i])
    ensures FindAccount(accounts, address) == Some(accounts[i])
  {
    if i > 0 {
      assert IsFirstMatch(accounts[1..], address, i - 1) by {
        forall j | 0 <= j < i - 1 ensures accounts[1..][j].address != address {
          assert accounts[1..][j] == accounts[j + 1];
        }
      }
      FindAccountFirstMatch(accounts[1..], address, i - 1);
    }
  }

  /** Conversely, the account chosen for a matching address is the first match. */
  lemma {:induction false} FindAccountIsFirst(accounts: seq<Account>, address: string) returns (i: nat)
    requires exists a :: a in accounts && a.address == address
    ensures IsFirstMatch(accounts, address, i)
    ensures FindAccount(accounts, address) == Some(accounts[i])
  {
    if accounts[0].address == address {
      i := 0;
    } else {
      var a :| a in accounts && a.address == address;
      assert a in accounts[1..];
      var k := FindAccountIsFirst(accounts[1..], address);
      i := k + 1;
      assert accounts[i] == accounts[1..][k];
      forall j | 0 <= j < i ensures accounts[j].address != address {
        if j > 0 { assert accounts[j] == accounts[1..][j - 1]; }
      }
    }
  }

  /** With no matching address the first account is the fallback. */
  lemma FindAccountFallback(accounts: seq<Account>, address: string)
    requires accounts != []
    requires forall a :: a in accounts ==> a.address != address
    ensures FindAccount(accounts, address) == Some(accounts[0])
  {
  }

  /** Matching is exact: an address differing from every account's (even only in case) falls back. */
  lemma ExactMatchOnly()
    ensures FindAccount([Account("ops@example.org", "k1", "1"), Account("Me@example.org", "k2", "2")], "me@example.org")
      == Some(Account("ops@example.org", "k1", "1"))
  {
  }
}
