/** The accounts bucket: records under lowercased addresses. */
module Directory {
  import opened Wrappers
  import opened Text

  /** displayLocal is the owner's own spelling of the local part, or "". */
  datatype Account = Account(uuid: string, address: string, signature: string, displayLocal: string, createdAt: int)

  /** What is kept of the spelling of a trimmed name. */
  function Display(name: string): string {
    if name != ToLower(name) then name else ""
  }

  function GetAccount(accounts: map<string, Account>, address: string): Option<Account> {
    if ToLower(address) in accounts then Some(accounts[ToLower(address)]) else None
  }

  function Lowered(addrs: seq<string>): set<string> {
    set a | a in addrs :: ToLower(a)
  }

  /** The accounts an address list reaches, each named once by its lowercased address. */
  function Recipients(accounts: map<string, Account>, addrs: seq<string>): set<string> {
    Lowered(addrs) * accounts.Keys
  }

  function Uuids(accounts: map<string, Account>, names: set<string>): set<string> {
    set l | l in names && l in accounts :: accounts[l].uuid
  }

  /** No two accounts share a uuid. */
  ghost predicate ValidAccounts(accounts: map<string, Account>) {
    forall k, l :: k in accounts && l in accounts && accounts[k].uuid == accounts[l].uuid ==> k == l
  }

  /** Every account that lookups find in a is found in b, and is the same one. */
  ghost predicate StillFound(a: map<string, Account>, b: map<string, Account>) {
    forall l :: l in a && IsLower(l) ==> l in b && b[l].uuid == a[l].uuid
  }

  lemma LoweredStep(addrs: seq<string>, a: string)
    ensures Lowered(addrs + [a]) == Lowered(addrs) + {ToLower(a)}
  {
    forall l | l in Lowered(addrs) + {ToLower(a)} ensures l in Lowered(addrs + [a]) {
      if l == ToLower(a) {
        assert a in addrs + [a];
      } else {
        var b :| b in addrs && ToLower(b) == l;
        assert b in addrs + [a];
      }
    }
  }

  lemma UuidsStep(accounts: map<string, Account>, names: set<string>, l: string)
    requires l in accounts
    ensures Uuids(accounts, names + {l}) == Uuids(accounts, names) + {accounts[l].uuid}
  {
    forall u | u in Uuids(accounts, names) + {accounts[l].uuid} ensures u in Uuids(accounts, names + {l}) {
      if u == accounts[l].uuid {
        assert l in names + {l};
      } else {
        var k :| k in names && k in accounts && accounts[k].uuid == u;
        assert k in names + {l};
      }
    }
  }
}
