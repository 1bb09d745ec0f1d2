/** The account store, internal/auth/cache.go: `Upsert`, `Next`, and the decision of
    `EnsureValid`. Saving to disk is not part of this model. */
module AuthCache {
  import opened Basics

  datatype Account = Account(
    id: string, email: string, accessToken: string, refreshToken: string, oid: string, tid: string,
    scheduleDisabled: bool, boundProxy: string, expiresAt: int, updatedAt: int, expired: bool)

  function IndexOf(accounts: seq<Account>, id: string, email: string): (i: nat)
    ensures i <= |accounts|
    ensures i < |accounts| ==> Matches(accounts[i], id, email)
    ensures forall j :: 0 <= j < i ==> !Matches(accounts[j], id, email)
  {
    if accounts == [] || Matches(accounts[0], id, email) then 0 else 1 + IndexOf(accounts[1..], id, email)
  }

  /** The same account: same id, or same non-empty email. */
  predicate Matches(a: Account, id: string, email: string) {
    a.id == id || (email != "" && a.email == email)
  }

  /** What `Get` and `EnsureValid` find an account by. */
  predicate Answers(a: Account, id: string) {
    a.id == id || a.oid == id || a.email == id
  }

  ghost predicate FirstAnswerAt(accounts: seq<Account>, id: string, k: nat) {
    && k < |accounts| && (accounts[k].id == id || accounts[k].oid == id || accounts[k].email == id)
    && forall j :: 0 <= j < k ==> accounts[j].id != id && accounts[j].oid != id && accounts[j].email != id
  }

  ghost predicate FirstAnswer(accounts: seq<Account>, id: string, a: Account) {
    exists k: nat :: FirstAnswerAt(accounts, id, k) && a == accounts[k]
  }

  lemma FirstIndex(accounts: seq<Account>, id: string, email: string, i: nat)
    requires i <= |accounts| && forall j :: 0 <= j < i ==> !Matches(accounts[j], id, email)
    requires i < |accounts| ==> Matches(accounts[i], id, email)
    ensures IndexOf(accounts, id, email) == i
  {
  }

  /** A token answer keeps what it does not carry and what an operator configured. */
  function Merge(tok: Account, existing: Account): Account {
    tok.(
      refreshToken := if tok.refreshToken == "" then existing.refreshToken else tok.refreshToken,
      oid := if tok.oid == "" then existing.oid else tok.oid,
      tid := if tok.tid == "" then existing.tid else tok.tid,
      scheduleDisabled := existing.scheduleDisabled,
      boundProxy := if tok.boundProxy == "" then existing.boundProxy else tok.boundProxy)
  }

  function Upserted(accounts: seq<Account>, tok: Account): seq<Account> {
    var i := IndexOf(accounts, tok.id, tok.email);
    if i < |accounts| then accounts[i := Merge(tok, accounts[i])] else accounts + [tok]
  }

  ghost predicate UniqueIds(accounts: seq<Account>) {
    forall i, j :: 0 <= i < j < |accounts| ==> accounts[i].id != accounts[j].id
  }

  /** How much life must be left for a token to be used as it is. */
  function Threshold(a: Account): int {
    var total := a.expiresAt - a.updatedAt;
    if total > 0 && total / 10 < 120 * SECOND then total / 10 else 120 * SECOND
  }

  datatype Validity =
    | Unknown
    | Usable(account: Account)
    | Expired(was: Account, account: Account)
    | Refresh(account: Account)

  class Store {
    var accounts: seq<Account>
    var nextIdx: nat

    constructor (accounts: seq<Account>)
      ensures this.accounts == accounts && nextIdx == 0
    {
      this.accounts, nextIdx := accounts, 0;
    }

    /** `Upsert`, after the token answer has been turned into an account. */
    method Upsert(tok: Account) returns (acc: Account)
      modifies this`accounts
      ensures accounts == Upserted(old(accounts), tok)
      ensures var i := IndexOf(old(accounts), tok.id, tok.email); i < |accounts| && acc == accounts[i]
    {
      acc := tok;
      var i := 0;
      while i < |accounts|
        invariant 0 <= i <= |accounts| && accounts == old(accounts) && acc == tok
        invariant forall j :: 0 <= j < i ==> !Matches(accounts[j], tok.id, tok.email)
      {
        if Matches(accounts[i], acc.id, acc.email) {
          acc := Merge(acc, accounts[i]);
          accounts := accounts[i := acc];
          FirstIndex(old(accounts), tok.id, tok.email, i);
          return;
        }
        i := i + 1;
      }
      FirstIndex(accounts, tok.id, tok.email, i);
      accounts := accounts + [acc];
    }

    /** `Next`: round robin, also after accounts were deleted behind the index. */
    method Next() returns (acc: Account, ok: bool)
      modifies this`nextIdx
      ensures ok <==> |accounts| > 0
      ensures ok ==> acc == accounts[old(nextIdx) % |accounts|] && nextIdx == (old(nextIdx) + 1) % |accounts|
      ensures !ok ==> nextIdx == old(nextIdx)
    {
      var n := |accounts|;
      if n == 0 {
        acc := Account("", "", "", "", "", "", false, "", 0, 0, false);
        return acc, false;
      }
      acc := accounts[nextIdx % n];
      nextIdx := (nextIdx + 1) % n;
      return acc, true;
    }

    /** The region of `EnsureValid` that decides whether to refresh. An account that cannot be
        refreshed is marked as expired, in the list and in what is returned. */
    method CheckValid(id: string, now: int) returns (v: Validity)
      modifies this`accounts
      ensures v.Unknown? <==> forall a :: a in old(accounts) ==> a.id != id && a.oid != id && a.email != id
      ensures !v.Unknown? ==> FirstAnswer(old(accounts), id, if v.Expired? then v.was else v.account)
      ensures v.Usable? ==> v.account.expiresAt - now > Threshold(v.account) >= 0
      ensures v.Expired? ==> v.was.expiresAt - now <= Threshold(v.was) <= 120 * SECOND && v.was.refreshToken == ""
      ensures v.Refresh? ==>
                v.account.expiresAt - now <= Threshold(v.account) <= 120 * SECOND && v.account.refreshToken != ""
      ensures accounts == if v.Expired? then MarkedExpired(old(accounts), v.was.id) else old(accounts)
      ensures v.Expired? ==> v.account == v.was.(expired := true)
    {
      for i := 0 to |accounts|
        invariant forall j :: 0 <= j < i ==> !Answers(accounts[j], id)
        invariant accounts == old(accounts)
      {
        var a := accounts[i];
        if Answers(a, id) {
          assert FirstAnswerAt(accounts, id, i);
          if a.expiresAt - now > Threshold(a) {
            return Usable(a);
          }
          if a.refreshToken == "" {
            MarkExpired(a.id);
            return Expired(a, a.(expired := true));
          }
          return Refresh(a);
        }
      }
      return Unknown;
    }

    /** The inner loop of `EnsureValid`: the first account with this id. */
    method MarkExpired(id: string)
      modifies this`accounts
      ensures accounts == MarkedExpired(old(accounts), id)
    {
      for i := 0 to |accounts|
        invariant accounts == old(accounts)
        invariant forall j :: 0 <= j < i ==> !Matches(accounts[j], id, "")
      {
        if accounts[i].id == id {
          FirstIndex(accounts, id, "", i);
          accounts := accounts[i := accounts[i].(expired := true)];
          return;
        }
      }
      FirstIndex(accounts, id, "", |accounts|);
    }
  }

  function MarkedExpired(accounts: seq<Account>, id: string): seq<Account> {
    var i := IndexOf(accounts, id, "");
    if i < |accounts| then accounts[i := accounts[i].(expired := true)] else accounts
  }

  /** With unique ids it is the account that was found, and no other, which is marked. */
  lemma FoundIsMarked(accounts: seq<Account>, id: string, k: nat)
    requires UniqueIds(accounts) && FirstAnswerAt(accounts, id, k)
    ensures MarkedExpired(accounts, accounts[k].id) == accounts[k := accounts[k].(expired := true)]
  {
    FirstIndex(accounts, accounts[k].id, "", k);
  }

  /** An upsert keeps ids unique exactly when the account it lands on is the only one with the
      new id. It can land on another one, found by its email. */
  lemma UpsertKeepsIdsUniqueIff(accounts: seq<Account>, tok: Account)
    requires UniqueIds(accounts)
    ensures UniqueIds(Upserted(accounts, tok)) <==>
            forall j :: 0 <= j < |accounts| && accounts[j].id == tok.id ==> j == IndexOf(accounts, tok.id, tok.email)
  {
    var i, after := IndexOf(accounts, tok.id, tok.email), Upserted(accounts, tok);
    assert i < |after| && after[i].id == tok.id;
    if j :| 0 <= j < |accounts| && accounts[j].id == tok.id && j != i {
      assert i < |accounts| && after[j] == accounts[j] && after[i].id == after[j].id;
    } else {
      forall a, b | 0 <= a < b < |after| ensures after[a].id != after[b].id {
        assert a != i ==> after[a] == accounts[a];
        assert b != i ==> after[b] == accounts[b];
      }
    }
  }

  /** What an upsert stores, and where: at the first account with the same id or the same
      non-empty email, else at the end, the new token, its expiry and identity, and the refresh
      token and directory ids if the answer has them. All other accounts stay. */
  lemma UpsertStoresToken(accounts: seq<Account>, tok: Account) returns (i: nat)
    ensures i <= |accounts| && i < |Upserted(accounts, tok)|
    ensures forall j :: 0 <= j < i ==>
              accounts[j].id != tok.id && (tok.email == "" || accounts[j].email != tok.email)
    ensures i < |accounts| ==> accounts[i].id == tok.id || (tok.email != "" && accounts[i].email == tok.email)
    ensures var a := Upserted(accounts, tok)[i];
            && a.id == tok.id && a.email == tok.email && a.accessToken == tok.accessToken
            && a.expiresAt == tok.expiresAt && a.updatedAt == tok.updatedAt && a.expired == tok.expired
            && (tok.refreshToken != "" ==> a.refreshToken == tok.refreshToken)
            && (tok.oid != "" ==> a.oid == tok.oid) && (tok.tid != "" ==> a.tid == tok.tid)
            && (tok.boundProxy != "" ==> a.boundProxy == tok.boundProxy)
            && (i < |accounts| && tok.oid == "" ==> a.oid == accounts[i].oid)
            && (i < |accounts| && tok.tid == "" ==> a.tid == accounts[i].tid)
    ensures forall j :: 0 <= j < |accounts| && j != i ==> Upserted(accounts, tok)[j] == accounts[j]
  {
    i := IndexOf(accounts, tok.id, tok.email);
  }

  /** A token is used as it is with more than 120 s left, or a tenth of its life if that is less. */
  lemma ThresholdIs(a: Account)
    ensures var life := a.expiresAt - a.updatedAt;
            Threshold(a) == if 0 < life < 1200 * SECOND then life / 10 else 120 * SECOND
  {
  }

  /** It happens: a token of a second account that carries the email of a first one. */
  lemma UpsertDuplicates()
    ensures var accounts, tok := [Named("a", "x"), Named("b", "")], Named("b", "x");
            UniqueIds(accounts) && Upserted(accounts, tok) == [Merge(tok, Named("a", "x")), Named("b", "")]
            && !UniqueIds(Upserted(accounts, tok))
  {
    var accounts, tok := [Named("a", "x"), Named("b", "")], Named("b", "x");
    assert Matches(accounts[0], "b", "x");
    var after := Upserted(accounts, tok);
    assert after[0].id == after[1].id;
  }

  function Named(id: string, email: string): Account {
    Account(id, email, "", "", "", "", false, "", 0, 0, false)
  }

  /** A refresh never loses what the operator set, nor a refresh token the answer left out. */
  lemma UpsertKeepsSettings(accounts: seq<Account>, tok: Account, i: nat)
    requires i < |accounts|
    ensures |Upserted(accounts, tok)|
         == |accounts| + (if exists a :: a in accounts && Matches(a, tok.id, tok.email) then 0 else 1)
    ensures Upserted(accounts, tok)[i].scheduleDisabled == accounts[i].scheduleDisabled
    ensures tok.boundProxy == "" ==> Upserted(accounts, tok)[i].boundProxy == accounts[i].boundProxy
    ensures tok.refreshToken == "" ==> Upserted(accounts, tok)[i].refreshToken == accounts[i].refreshToken
  {
  }
}
