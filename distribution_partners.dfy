/** Notifying distribution partners about their clients' payouts: a payout batch is
    folded into one running total per account, the resolved accounts are folded into
    one record per distribution partner, and every partner with an e-mail address is
    sent one message listing its clients. The account lookup, the e-mail sender, the
    amount formatter and the display-name helper are parameters. */
module DistributionPartners {
  import opened Wrappers

  type Currency = string

  /** One executed payment of the batch. The amount is exact: sums are not rounded. */
  datatype Payout = Payout(accountId: int, payout: real, currency: Currency)

  /** The running total of one account and the currency of its first payout. */
  datatype AccountPayout = AccountPayout(totalPayout: real, currency: Currency)

  /** The partner an account is linked to, as the lookup selects it. */
  datatype PartnerRef = PartnerRef(id: int, email: Option<string>)

  /** An account row of the lookup. */
  datatype UserAccount = UserAccount(id: int, email: Option<string>, name: Option<string>,
                                     surname: Option<string>, isCorporate: bool,
                                     corporateName: Option<string>, partner: Option<PartnerRef>)

  datatype RelatedAccount = RelatedAccount(payoutAmount: real, currency: Currency,
                                           email: Option<string>, id: int, formattedName: string)

  /** The per-partner record of the grouping fold. */
  datatype DistributionPartnerAccount = DistributionPartnerAccount(id: int, email: Option<string>,
                                                                   relatedAccounts: seq<RelatedAccount>)

  // ---------------------------------------------------------------------
  // Totals per account: the specification
  // ---------------------------------------------------------------------

  /** The account ids carried by the batch. */
  function AccountIds(payouts: seq<Payout>): set<int> {
    set i | 0 <= i < |payouts| :: payouts[i].accountId
  }

  /** The sum of the amounts of all payouts carrying `id`. */
  function SumFor(payouts: seq<Payout>, id: int): real {
    if payouts == [] then 0.0
    else
      var last := payouts[|payouts| - 1];
      SumFor(payouts[..|payouts| - 1], id) + (if last.accountId == id then last.payout else 0.0)
  }

  /** The currency of the first payout carrying `id`. */
  function FirstCurrency(payouts: seq<Payout>, id: int): Currency
    requires id in AccountIds(payouts)
  {
    var init := payouts[..|payouts| - 1];
    if id in AccountIds(init) then FirstCurrency(init, id) else payouts[|payouts| - 1].currency
  }

  /** The map the totals fold should build. */
  function TotalPayoutSums(payouts: seq<Payout>): (r: map<int, AccountPayout>)
    ensures forall i :: 0 <= i < |payouts| ==> payouts[i].accountId in r
    ensures forall id :: id in r ==> exists i :: 0 <= i < |payouts| && payouts[i].accountId == id
  {
    map id | id in AccountIds(payouts) :: AccountPayout(SumFor(payouts, id), FirstCurrency(payouts, id))
  }

  lemma AccountIdsSnoc(payouts: seq<Payout>, p: Payout)
    ensures AccountIds(payouts + [p]) == AccountIds(payouts) + {p.accountId}
  {
    var s := payouts + [p];
    assert s[|payouts|].accountId == p.accountId;
    forall id | id in AccountIds(payouts) ensures id in AccountIds(s) {
      var i :| 0 <= i < |payouts| && payouts[i].accountId == id;
      assert s[i] == payouts[i];
    }
  }

  /** Appending a payout to the batch: its account's total grows by its amount, and the
      currency stays that of the account's first payout. */
  lemma {:induction false} SnocTotals(payouts: seq<Payout>, p: Payout, id: int)
    ensures SumFor(payouts + [p], id) == SumFor(payouts, id) + (if p.accountId == id then p.payout else 0.0)
    ensures id in AccountIds(payouts) ==> FirstCurrency(payouts + [p], id) == FirstCurrency(payouts, id)
    ensures id !in AccountIds(payouts) && id == p.accountId ==> FirstCurrency(payouts + [p], id) == p.currency
  {
    var s := payouts + [p];
    assert s[..|s| - 1] == payouts;
    AccountIdsSnoc(payouts, p);
  }

  /** A later payout of an account already in the batch only adds to that account's total;
      every other entry is unchanged. */
  lemma {:induction false} LaterPayoutsOnlyAdd(payouts: seq<Payout>, p: Payout)
    requires p.accountId in AccountIds(payouts)
    ensures var before, after := TotalPayoutSums(payouts), TotalPayoutSums(payouts + [p]);
      after.Keys == before.Keys
      && after[p.accountId] == before[p.accountId].(totalPayout := before[p.accountId].totalPayout + p.payout)
      && forall id :: id in before && id != p.accountId ==> after[id] == before[id]
  {
    AccountIdsSnoc(payouts, p);
    SnocTotals(payouts, p, p.accountId);
    forall id | id in AccountIds(payouts) && id != p.accountId
      ensures TotalPayoutSums(payouts + [p])[id] == TotalPayoutSums(payouts)[id]
    {
      SnocTotals(payouts, p, id);
    }
  }

  /** The recorded currency of an account is that of its first payout in the batch. */
  lemma {:induction false} FirstCurrencyIsFirstPayout(payouts: seq<Payout>, k: nat)
    requires k < |payouts|
    requires forall j :: 0 <= j < k ==> payouts[j].accountId != payouts[k].accountId
    ensures payouts[k].accountId in AccountIds(payouts)
    ensures FirstCurrency(payouts, payouts[k].accountId) == payouts[k].currency
  {
    var id := payouts[k].accountId;
    var n := |payouts| - 1;
    var init := payouts[..n];
    if k < n {
      assert init[k] == payouts[k];
      assert id in AccountIds(init);
      FirstCurrencyIsFirstPayout(init, k);
    } else {
      assert forall j :: 0 <= j < n ==> init[j] == payouts[j];
      assert id !in AccountIds(init);
    }
  }

  /** The sum for an account that carries no payout is zero. */
  lemma {:induction false} SumForAbsent(payouts: seq<Payout>, id: int)
    requires id !in AccountIds(payouts)
    ensures SumFor(payouts, id) == 0.0
  {
    if payouts != [] {
      var n := |payouts| - 1;
      assert payouts[n].accountId in AccountIds(payouts);
      assert AccountIds(payouts[..n]) <= AccountIds(payouts) by {
        forall x | x in AccountIds(payouts[..n]) ensures x in AccountIds(payouts) {
          var i :| 0 <= i < n && payouts[..n][i].accountId == x;
          assert payouts[i] == payouts[..n][i];
        }
      }
      SumForAbsent(payouts[..n], id);
    }
  }

  // ---------------------------------------------------------------------
  // Totals per account: the fold
  // ---------------------------------------------------------------------

  /** `payouts.reduce` into `totalPayoutSumByAccountId`: one entry per distinct account of
      the batch, holding the sum of that account's payouts and its first payout's currency. */
  method AggregateTotals(payouts: seq<Payout>) returns (totals: map<int, AccountPayout>)
    ensures totals.Keys == AccountIds(payouts)
    ensures forall id :: id in totals ==>
      totals[id].totalPayout == SumFor(payouts, id) && totals[id].currency == FirstCurrency(payouts, id)
    ensures totals == TotalPayoutSums(payouts)
  {
    totals := map[];
    for i := 0 to |payouts|
      invariant totals.Keys == AccountIds(payouts[..i])
      invariant forall id :: id in totals ==>
        totals[id] == AccountPayout(SumFor(payouts[..i], id), FirstCurrency(payouts[..i], id))
    {
      var payout := payouts[i];
      assert payouts[..i + 1] == payouts[..i] + [payout];
      AccountIdsSnoc(payouts[..i], payout);
      forall id ensures SumFor(payouts[..i + 1], id) == SumFor(payouts[..i], id) + (if payout.accountId == id then payout.payout else 0.0)
        && (id in AccountIds(payouts[..i]) ==> FirstCurrency(payouts[..i + 1], id) == FirstCurrency(payouts[..i], id))
        && (id !in AccountIds(payouts[..i]) && id == payout.accountId ==> FirstCurrency(payouts[..i + 1], id) == payout.currency)
      {
        SnocTotals(payouts[..i], payout, id);
      }
      var existingPayout := if payout.accountId in totals then Some(totals[payout.accountId]) else None;
      if existingPayout.Some? {
        // a Decimal total is an object, so the entry's `totalPayout` is always truthy
        totals := totals[payout.accountId := existingPayout.value.(totalPayout := existingPayout.value.totalPayout + payout.payout)];
      } else {
        SumForAbsent(payouts[..i], payout.accountId);
        totals := totals[payout.accountId := AccountPayout(payout.payout, payout.currency)];
      }
    }
    assert payouts[..|payouts|] == payouts;
  }

  // ---------------------------------------------------------------------
  // Grouping by partner: the specification
  // ---------------------------------------------------------------------

  predicate Partnered(a: UserAccount) {
    a.partner.Some?
  }

  predicate HasPartner(a: UserAccount, pid: int) {
    a.partner.Some? && a.partner.value.id == pid
  }

  /** The ids of the partners the accounts are linked to. */
  function PartnerIdSet(accounts: seq<UserAccount>): set<int> {
    set a | a in accounts && a.partner.Some? :: a.partner.value.id
  }

  /** The partners' ids in the order the accounts first name them, each once. */
  function PartnerIds(accounts: seq<UserAccount>): (ids: seq<int>)
    ensures forall i, j :: 0 <= i < j < |ids| ==> ids[i] != ids[j]
    ensures forall pid :: pid in ids <==> pid in PartnerIdSet(accounts)
  {
    if accounts == [] then []
    else
      var init := accounts[..|accounts| - 1];
      var a := accounts[|accounts| - 1];
      assert accounts == init + [a];
      var ids := PartnerIds(init);
      if a.partner.Some? && a.partner.value.id !in ids then ids + [a.partner.value.id] else ids
  }

  /** The accounts linked to partner `pid`, in their order. */
  function RelatedTo(accounts: seq<UserAccount>, pid: int): (r: seq<UserAccount>)
    ensures forall a :: a in r ==> a in accounts && HasPartner(a, pid)
    ensures |r| <= |accounts|
  {
    if accounts == [] then []
    else
      var init := accounts[..|accounts| - 1];
      var a := accounts[|accounts| - 1];
      assert accounts == init + [a];
      RelatedTo(init, pid) + (if HasPartner(a, pid) then [a] else [])
  }

  /** The partner e-mail as the first account linked to `pid` carries it. */
  function FirstPartnerEmail(accounts: seq<UserAccount>, pid: int): Option<string>
    requires pid in PartnerIdSet(accounts)
  {
    var init := accounts[..|accounts| - 1];
    var a := accounts[|accounts| - 1];
    assert accounts == init + [a];
    if pid in PartnerIdSet(init) then FirstPartnerEmail(init, pid) else a.partner.value.email
  }

  /** Every partnered account has a total. */
  predicate Covered(totals: map<int, AccountPayout>, accounts: seq<UserAccount>) {
    forall a :: a in accounts && Partnered(a) ==> a.id in totals
  }

  function Entry(totals: map<int, AccountPayout>, a: UserAccount, displayName: UserAccount -> string): RelatedAccount
    requires a.id in totals
  {
    RelatedAccount(totals[a.id].totalPayout, totals[a.id].currency, a.email, a.id, displayName(a))
  }

  function Entries(totals: map<int, AccountPayout>, related: seq<UserAccount>,
                   displayName: UserAccount -> string): (r: seq<RelatedAccount>)
    requires forall a :: a in related ==> a.id in totals
    ensures |r| == |related|
  {
    seq(|related|, j requires 0 <= j < |related| => Entry(totals, related[j], displayName))
  }

  /** The record of partner `pid`: its id, the e-mail the first linked account carries,
      and one entry per linked account, in order. */
  function PartnerRecordOf(totals: map<int, AccountPayout>, accounts: seq<UserAccount>, pid: int,
                           displayName: UserAccount -> string): DistributionPartnerAccount
    requires Covered(totals, accounts) && pid in PartnerIdSet(accounts)
  {
    DistributionPartnerAccount(pid, FirstPartnerEmail(accounts, pid),
                               Entries(totals, RelatedTo(accounts, pid), displayName))
  }

  lemma EntriesSnoc(totals: map<int, AccountPayout>, related: seq<UserAccount>, a: UserAccount,
                    displayName: UserAccount -> string)
    requires forall b :: b in related ==> b.id in totals
    requires a.id in totals
    ensures Entries(totals, related + [a], displayName) == Entries(totals, related, displayName) + [Entry(totals, a, displayName)]
  {
    assert forall j :: 0 <= j < |related| ==> (related + [a])[j] == related[j];
  }

  /** The partner records the grouping fold should build, in `Map` insertion order, or
      None when a partnered account has no total (reading its `currency` throws). */
  function PartnerRecords(totals: map<int, AccountPayout>, accounts: seq<UserAccount>,
                          displayName: UserAccount -> string): (r: Option<seq<DistributionPartnerAccount>>)
    ensures r.None? <==> exists a :: a in accounts && Partnered(a) && a.id !in totals
    ensures r.Some? ==> |r.value| == |PartnerIds(accounts)|
  {
    if !Covered(totals, accounts) then None
    else
      var ids := PartnerIds(accounts);
      Some(seq(|ids|, k requires 0 <= k < |ids| => PartnerRecordOf(totals, accounts, ids[k], displayName)))
  }

  // ---------------------------------------------------------------------
  // Grouping by partner: the fold
  // ---------------------------------------------------------------------

  lemma AccountsSnoc(accounts: seq<UserAccount>, a: UserAccount)
    ensures PartnerIdSet(accounts + [a]) == PartnerIdSet(accounts) + (if a.partner.Some? then {a.partner.value.id} else {})
    ensures PartnerIds(accounts + [a]) ==
      if a.partner.Some? && a.partner.value.id !in PartnerIds(accounts)
      then PartnerIds(accounts) + [a.partner.value.id] else PartnerIds(accounts)
    ensures forall pid :: RelatedTo(accounts + [a], pid) == RelatedTo(accounts, pid) + (if HasPartner(a, pid) then [a] else [])
    ensures forall pid :: pid in PartnerIdSet(accounts) ==> FirstPartnerEmail(accounts + [a], pid) == FirstPartnerEmail(accounts, pid)
    ensures a.partner.Some? && a.partner.value.id !in PartnerIdSet(accounts) ==>
      FirstPartnerEmail(accounts + [a], a.partner.value.id) == a.partner.value.email
  {
    var s := accounts + [a];
    assert s[..|s| - 1] == accounts;
  }

  /** The state of the grouping fold after `accounts`: the insertion order of the
      partner ids and the accumulator map. */
  ghost predicate Grouped(totals: map<int, AccountPayout>, accounts: seq<UserAccount>, order: seq<int>,
                          accumulator: map<int, DistributionPartnerAccount>, displayName: UserAccount -> string)
  {
    && order == PartnerIds(accounts)
    && accumulator.Keys == PartnerIdSet(accounts)
    && Covered(totals, accounts)
    && forall pid :: pid in accumulator ==> accumulator[pid] == PartnerRecordOf(totals, accounts, pid, displayName)
  }

  lemma GroupSkip(totals: map<int, AccountPayout>, accounts: seq<UserAccount>, a: UserAccount, order: seq<int>,
                  accumulator: map<int, DistributionPartnerAccount>, displayName: UserAccount -> string)
    requires Grouped(totals, accounts, order, accumulator, displayName) && !Partnered(a)
    ensures Grouped(totals, accounts + [a], order, accumulator, displayName)
  {
    AccountsSnoc(accounts, a);
  }

  /** Appending the entry of `a` to the record of its partner `pid`. */
  function AddEntry(totals: map<int, AccountPayout>, accumulator: map<int, DistributionPartnerAccount>,
                    a: UserAccount, pid: int, displayName: UserAccount -> string): map<int, DistributionPartnerAccount>
    requires pid in accumulator && a.id in totals
  {
    accumulator[pid := accumulator[pid].(relatedAccounts := accumulator[pid].relatedAccounts + [Entry(totals, a, displayName)])]
  }

  /** The records of the accumulator after an account of a known partner is added. */
  lemma KnownPartnerRecords(totals: map<int, AccountPayout>, accounts: seq<UserAccount>, a: UserAccount,
                            accumulator: map<int, DistributionPartnerAccount>, displayName: UserAccount -> string)
    requires Covered(totals, accounts) && Partnered(a) && a.id in totals
    requires accumulator.Keys == PartnerIdSet(accounts) && a.partner.value.id in accumulator
    requires forall q :: q in accumulator ==> accumulator[q] == PartnerRecordOf(totals, accounts, q, displayName)
    ensures Covered(totals, accounts + [a])
    ensures var next := AddEntry(totals, accumulator, a, a.partner.value.id, displayName);
      && next.Keys == PartnerIdSet(accounts + [a])
      && forall q :: q in next ==> q in PartnerIdSet(accounts + [a]) && next[q] == PartnerRecordOf(totals, accounts + [a], q, displayName)
  {
    var pid := a.partner.value.id;
    var next := AddEntry(totals, accumulator, a, pid, displayName);
    assert Covered(totals, accounts + [a]);
    assert next.Keys == PartnerIdSet(accounts + [a]) by {
      AccountsSnoc(accounts, a);
    }
    forall q | q in next
      ensures q in PartnerIdSet(accounts + [a]) && next[q] == PartnerRecordOf(totals, accounts + [a], q, displayName)
    {
      if q == pid {
        ExistingRecordGrows(totals, accounts, a, accumulator[pid], displayName);
      } else {
        assert next[q] == accumulator[q];
        UntouchedRecord(totals, accounts, a, q, displayName);
      }
    }
  }

  /** A partnered account with a total whose partner is already in the accumulator. */
  lemma GroupExisting(totals: map<int, AccountPayout>, accounts: seq<UserAccount>, a: UserAccount, order: seq<int>,
                      accumulator: map<int, DistributionPartnerAccount>, displayName: UserAccount -> string)
    requires Grouped(totals, accounts, order, accumulator, displayName) && Partnered(a) && a.id in totals
    requires a.partner.value.id in accumulator
    ensures Grouped(totals, accounts + [a], order,
                    AddEntry(totals, accumulator, a, a.partner.value.id, displayName), displayName)
  {
    var s := accounts + [a];
    assert PartnerIdSet(s) == PartnerIdSet(accounts) && PartnerIds(s) == PartnerIds(accounts) by {
      AccountsSnoc(accounts, a);
    }
    KnownPartnerRecords(totals, accounts, a, accumulator, displayName);
  }

  /** The record of a partner other than that of `a` does not change when `a` is added. */
  lemma UntouchedRecord(totals: map<int, AccountPayout>, accounts: seq<UserAccount>, a: UserAccount, q: int,
                        displayName: UserAccount -> string)
    requires Covered(totals, accounts + [a]) && q in PartnerIdSet(accounts) && !HasPartner(a, q)
    ensures Covered(totals, accounts) && q in PartnerIdSet(accounts + [a])
    ensures PartnerRecordOf(totals, accounts + [a], q, displayName) == PartnerRecordOf(totals, accounts, q, displayName)
  {
    AccountsSnoc(accounts, a);
    assert RelatedTo(accounts + [a], q) == RelatedTo(accounts, q);
  }

  lemma ExistingRecordGrows(totals: map<int, AccountPayout>, accounts: seq<UserAccount>, a: UserAccount,
                            record: DistributionPartnerAccount, displayName: UserAccount -> string)
    requires Covered(totals, accounts) && Partnered(a) && a.id in totals
    requires a.partner.value.id in PartnerIdSet(accounts)
    requires record == PartnerRecordOf(totals, accounts, a.partner.value.id, displayName)
    ensures Covered(totals, accounts + [a])
    ensures record.(relatedAccounts := record.relatedAccounts + [Entry(totals, a, displayName)])
         == PartnerRecordOf(totals, accounts + [a], a.partner.value.id, displayName)
  {
    AccountsSnoc(accounts, a);
    var pid := a.partner.value.id;
    assert RelatedTo(accounts + [a], pid) == RelatedTo(accounts, pid) + [a];
    EntriesSnoc(totals, RelatedTo(accounts, pid), a, displayName);
  }

  lemma NewRecord(totals: map<int, AccountPayout>, accounts: seq<UserAccount>, a: UserAccount,
                  displayName: UserAccount -> string)
    requires Covered(totals, accounts) && Partnered(a) && a.id in totals
    requires a.partner.value.id !in PartnerIdSet(accounts)
    ensures Covered(totals, accounts + [a]) && a.partner.value.id in PartnerIdSet(accounts + [a])
    ensures DistributionPartnerAccount(a.partner.value.id, a.partner.value.email, [Entry(totals, a, displayName)])
         == PartnerRecordOf(totals, accounts + [a], a.partner.value.id, displayName)
  {
    AccountsSnoc(accounts, a);
    var pid := a.partner.value.id;
    RelatedToEmptyOutside(accounts, pid);
    assert RelatedTo(accounts + [a], pid) == [a];
  }

  /** The records of the accumulator after a new partner's first account is added. */
  lemma NewPartnerRecords(totals: map<int, AccountPayout>, accounts: seq<UserAccount>, a: UserAccount,
                          accumulator: map<int, DistributionPartnerAccount>, displayName: UserAccount -> string)
    requires Covered(totals, accounts) && Partnered(a) && a.id in totals
    requires accumulator.Keys == PartnerIdSet(accounts) && a.partner.value.id !in accumulator
    requires forall q :: q in accumulator ==> accumulator[q] == PartnerRecordOf(totals, accounts, q, displayName)
    ensures Covered(totals, accounts + [a])
    ensures var pid := a.partner.value.id;
      var next := AddEntry(totals, accumulator[pid := DistributionPartnerAccount(pid, a.partner.value.email, [])],
                           a, pid, displayName);
      && next.Keys == PartnerIdSet(accounts + [a])
      && forall q :: q in next ==> q in PartnerIdSet(accounts + [a]) && next[q] == PartnerRecordOf(totals, accounts + [a], q, displayName)
  {
    var pid := a.partner.value.id;
    var next := AddEntry(totals, accumulator[pid := DistributionPartnerAccount(pid, a.partner.value.email, [])],
                         a, pid, displayName);
    assert Covered(totals, accounts + [a]);
    assert next.Keys == PartnerIdSet(accounts + [a]) by {
      AccountsSnoc(accounts, a);
    }
    forall q | q in next
      ensures q in PartnerIdSet(accounts + [a]) && next[q] == PartnerRecordOf(totals, accounts + [a], q, displayName)
    {
      if q == pid {
        NewRecord(totals, accounts, a, displayName);
      } else {
        assert next[q] == accumulator[q];
        UntouchedRecord(totals, accounts, a, q, displayName);
      }
    }
  }

  /** A partnered account with a total whose partner is met for the first time. */
  lemma GroupNew(totals: map<int, AccountPayout>, accounts: seq<UserAccount>, a: UserAccount, order: seq<int>,
                 accumulator: map<int, DistributionPartnerAccount>, displayName: UserAccount -> string)
    requires Grouped(totals, accounts, order, accumulator, displayName) && Partnered(a) && a.id in totals
    requires a.partner.value.id !in accumulator
    ensures var pid := a.partner.value.id;
      Grouped(totals, accounts + [a], order + [pid],
              AddEntry(totals, accumulator[pid := DistributionPartnerAccount(pid, a.partner.value.email, [])],
                       a, pid, displayName), displayName)
  {
    var pid := a.partner.value.id;
    var s := accounts + [a];
    assert PartnerIdSet(s) == PartnerIdSet(accounts) + {pid} && PartnerIds(s) == PartnerIds(accounts) + [pid] by {
      AccountsSnoc(accounts, a);
    }
    NewPartnerRecords(totals, accounts, a, accumulator, displayName);
  }

  /** `userAccounts.reduce` into `distributionPartnerAccounts`, followed by
      `Array.from(distributionPartnerAccounts.values())`; None when the fold throws. */
  method GroupByPartner(totals: map<int, AccountPayout>, accounts: seq<UserAccount>,
                        displayName: UserAccount -> string)
    returns (partners: Option<seq<DistributionPartnerAccount>>)
    ensures partners == PartnerRecords(totals, accounts, displayName)
  {
    var order: seq<int> := [];
    var accumulator: map<int, DistributionPartnerAccount> := map[];
    for i := 0 to |accounts|
      invariant Grouped(totals, accounts[..i], order, accumulator, displayName)
    {
      var userAccount := accounts[i];
      assert accounts[..i + 1] == accounts[..i] + [userAccount];
      if userAccount.partner.Some? {
        var distributionPartner := userAccount.partner.value;
        ghost var order0, accumulator0 := order, accumulator;
        if distributionPartner.id !in accumulator {
          accumulator := accumulator[distributionPartner.id :=
            DistributionPartnerAccount(distributionPartner.id, distributionPartner.email, [])];
          order := order + [distributionPartner.id];
        }
        if userAccount.id !in totals {
          // `totalPayoutSumByAccountId.get(...)` is undefined and reading its `currency` throws
          assert userAccount in accounts;
          return None;
        }
        var payoutObject := totals[userAccount.id];
        var record := accumulator[distributionPartner.id];
        accumulator := accumulator[distributionPartner.id := record.(relatedAccounts := record.relatedAccounts +
          [RelatedAccount(payoutObject.totalPayout, payoutObject.currency, userAccount.email,
                          userAccount.id, displayName(userAccount))])];
        if distributionPartner.id in accumulator0 {
          GroupExisting(totals, accounts[..i], userAccount, order0, accumulator0, displayName);
        } else {
          GroupNew(totals, accounts[..i], userAccount, order0, accumulator0, displayName);
        }
      } else {
        GroupSkip(totals, accounts[..i], userAccount, order, accumulator, displayName);
      }
    }
    assert accounts[..|accounts|] == accounts;
    partners := Some(seq(|order|, k requires 0 <= k < |order| => accumulator[order[k]]));
    assert partners.value == PartnerRecords(totals, accounts, displayName).value by {
      forall k | 0 <= k < |order| ensures partners.value[k] == PartnerRecords(totals, accounts, displayName).value[k] {
        assert order[k] in PartnerIdSet(accounts);
      }
    }
  }

  // ---------------------------------------------------------------------
  // Properties of the grouping
  // ---------------------------------------------------------------------

  /** The accounts that have a partner, in their order. */
  function PartneredOnly(accounts: seq<UserAccount>): (r: seq<UserAccount>)
    ensures forall a :: a in r ==> a in accounts && Partnered(a)
  {
    if accounts == [] then []
    else
      var init := accounts[..|accounts| - 1];
      var a := accounts[|accounts| - 1];
      assert accounts == init + [a];
      PartneredOnly(init) + (if Partnered(a) then [a] else [])
  }

  /** Dropping the accounts without a partner changes nothing the grouping builds from. */
  lemma UnpartneredDropped(accounts: seq<UserAccount>)
    ensures PartnerIdSet(PartneredOnly(accounts)) == PartnerIdSet(accounts)
    ensures PartnerIds(PartneredOnly(accounts)) == PartnerIds(accounts)
    ensures forall pid :: RelatedTo(PartneredOnly(accounts), pid) == RelatedTo(accounts, pid)
    ensures forall pid :: pid in PartnerIdSet(accounts) ==>
      FirstPartnerEmail(PartneredOnly(accounts), pid) == FirstPartnerEmail(accounts, pid)
  {
    PartneredOnlyKeepsIds(accounts);
    forall pid
      ensures RelatedTo(PartneredOnly(accounts), pid) == RelatedTo(accounts, pid)
      ensures pid in PartnerIdSet(accounts) ==>
        FirstPartnerEmail(PartneredOnly(accounts), pid) == FirstPartnerEmail(accounts, pid)
    {
      PartneredOnlyKeepsPartner(accounts, pid);
    }
  }

  /** Dropping the accounts without a partner keeps the partner ids and their order. */
  lemma {:induction false} PartneredOnlyKeepsIds(accounts: seq<UserAccount>)
    ensures PartnerIdSet(PartneredOnly(accounts)) == PartnerIdSet(accounts)
    ensures PartnerIds(PartneredOnly(accounts)) == PartnerIds(accounts)
  {
    if accounts != [] {
      var init := accounts[..|accounts| - 1];
      var a := accounts[|accounts| - 1];
      assert accounts == init + [a];
      PartneredOnlyKeepsIds(init);
      AccountsSnoc(init, a);
      if Partnered(a) {
        assert PartneredOnly(accounts) == PartneredOnly(init) + [a];
        AccountsSnoc(PartneredOnly(init), a);
      } else {
        assert PartneredOnly(accounts) == PartneredOnly(init);
      }
    }
  }

  /** Dropping the accounts without a partner keeps one partner's accounts and e-mail. */
  lemma {:induction false} PartneredOnlyKeepsPartner(accounts: seq<UserAccount>, pid: int)
    ensures RelatedTo(PartneredOnly(accounts), pid) == RelatedTo(accounts, pid)
    ensures pid in PartnerIdSet(accounts) ==>
      pid in PartnerIdSet(PartneredOnly(accounts)) &&
      FirstPartnerEmail(PartneredOnly(accounts), pid) == FirstPartnerEmail(accounts, pid)
  {
    if accounts != [] {
      var init := accounts[..|accounts| - 1];
      var a := accounts[|accounts| - 1];
      assert accounts == init + [a];
      PartneredOnlyKeepsIds(init);
      PartneredOnlyKeepsPartner(init, pid);
      AccountsSnoc(init, a);
      if Partnered(a) {
        assert PartneredOnly(accounts) == PartneredOnly(init) + [a];
        AccountsSnoc(PartneredOnly(init), a);
      } else {
        assert PartneredOnly(accounts) == PartneredOnly(init);
      }
    }
  }

  /** Accounts without a distribution partner contribute nothing to any partner record. */
  lemma UnpartneredContributeNothing(totals: map<int, AccountPayout>, accounts: seq<UserAccount>,
                                     displayName: UserAccount -> string)
    ensures PartnerRecords(totals, accounts, displayName) == PartnerRecords(totals, PartneredOnly(accounts), displayName)
  {
    UnpartneredDropped(accounts);
    assert Covered(totals, accounts) <==> Covered(totals, PartneredOnly(accounts)) by {
      if Covered(totals, PartneredOnly(accounts)) {
        forall a | a in accounts && Partnered(a) ensures a.id in totals {
          assert a in RelatedTo(accounts, a.partner.value.id) by {
            RelatedToComplete(accounts, a);
          }
          assert a in RelatedTo(PartneredOnly(accounts), a.partner.value.id);
        }
      }
    }
    if Covered(totals, accounts) {
      var ids := PartnerIds(accounts);
      var p := PartneredOnly(accounts);
      forall k | 0 <= k < |ids|
        ensures PartnerRecordOf(totals, accounts, ids[k], displayName) == PartnerRecordOf(totals, p, ids[k], displayName)
      {
        assert RelatedTo(p, ids[k]) == RelatedTo(accounts, ids[k]);
        assert FirstPartnerEmail(p, ids[k]) == FirstPartnerEmail(accounts, ids[k]);
      }
      assert PartnerIds(p) == ids;
      var r1 := PartnerRecords(totals, accounts, displayName).value;
      var r2 := PartnerRecords(totals, p, displayName).value;
      assert |r1| == |r2| == |ids|;
      assert forall k | 0 <= k < |ids| :: r1[k] == r2[k];
      assert r1 == r2;
      assert Covered(totals, p);
    }
  }

  /** Every account linked to `pid` appears in `RelatedTo(accounts, pid)`. */
  lemma {:induction false} RelatedToComplete(accounts: seq<UserAccount>, a: UserAccount)
    requires a in accounts && Partnered(a)
    ensures a in RelatedTo(accounts, a.partner.value.id)
  {
    var init := accounts[..|accounts| - 1];
    var last := accounts[|accounts| - 1];
    assert accounts == init + [last];
    AccountsSnoc(init, last);
    if a != last {
      assert a in init;
      RelatedToComplete(init, a);
    }
  }

  /** One record per distinct partner; every related account listed under a partner is
      linked to it and comes from the resolved accounts, in their order. */
  lemma RecordsPerPartner(totals: map<int, AccountPayout>, accounts: seq<UserAccount>,
                          displayName: UserAccount -> string)
    requires Covered(totals, accounts)
    ensures var rs := PartnerRecords(totals, accounts, displayName).value;
      && (forall i, j :: 0 <= i < j < |rs| ==> rs[i].id != rs[j].id)
      && (forall pid :: pid in PartnerIdSet(accounts) <==> exists k :: 0 <= k < |rs| && rs[k].id == pid)
      && (forall k :: 0 <= k < |rs| ==>
            var related := RelatedTo(accounts, rs[k].id);
            |rs[k].relatedAccounts| == |related|
            && forall j :: 0 <= j < |related| ==>
                 HasPartner(related[j], rs[k].id) && rs[k].relatedAccounts[j] == Entry(totals, related[j], displayName))
  {
    var rs := PartnerRecords(totals, accounts, displayName).value;
    var ids := PartnerIds(accounts);
    forall pid | pid in PartnerIdSet(accounts) ensures exists k :: 0 <= k < |rs| && rs[k].id == pid {
      var k :| 0 <= k < |ids| && ids[k] == pid;
      assert rs[k].id == pid;
    }
    forall k | 0 <= k < |rs| ensures rs[k].id in PartnerIdSet(accounts) {
      assert rs[k].id == ids[k];
    }
    forall k, j | 0 <= k < |rs| && 0 <= j < |RelatedTo(accounts, rs[k].id)|
      ensures HasPartner(RelatedTo(accounts, rs[k].id)[j], rs[k].id)
    {
      assert RelatedTo(accounts, rs[k].id)[j] in RelatedTo(accounts, rs[k].id);
    }
  }

  /** The sum of the lengths of `RelatedTo(accounts, ids[k])` over `ids`. */
  function SumRelated(accounts: seq<UserAccount>, ids: seq<int>): nat {
    if ids == [] then 0 else |RelatedTo(accounts, ids[0])| + SumRelated(accounts, ids[1..])
  }

  /** The number of related accounts over all records. */
  function TotalRelated(rs: seq<DistributionPartnerAccount>): nat {
    if rs == [] then 0 else |rs[0].relatedAccounts| + TotalRelated(rs[1..])
  }

  lemma {:induction false} SumRelatedSnoc(accounts: seq<UserAccount>, a: UserAccount, ids: seq<int>)
    requires forall i, j :: 0 <= i < j < |ids| ==> ids[i] != ids[j]
    ensures SumRelated(accounts + [a], ids) ==
      SumRelated(accounts, ids) + (if a.partner.Some? && a.partner.value.id in ids then 1 else 0)
  {
    AccountsSnoc(accounts, a);
    if ids != [] {
      assert forall i, j :: 0 <= i < j < |ids[1..]| ==> ids[1..][i] != ids[1..][j] by {
        forall i, j | 0 <= i < j < |ids[1..]| ensures ids[1..][i] != ids[1..][j] {
          assert ids[1..][i] == ids[i + 1] && ids[1..][j] == ids[j + 1];
        }
      }
      SumRelatedSnoc(accounts, a, ids[1..]);
      assert ids[0] !in ids[1..] by {
        assert forall j :: 0 <= j < |ids[1..]| ==> ids[1..][j] == ids[j + 1];
      }
      assert forall x :: x in ids <==> x == ids[0] || x in ids[1..] by {
        assert ids == [ids[0]] + ids[1..];
      }
    }
  }

  lemma {:induction false} SumRelatedAppend(accounts: seq<UserAccount>, ids: seq<int>, pid: int)
    ensures SumRelated(accounts, ids + [pid]) == SumRelated(accounts, ids) + |RelatedTo(accounts, pid)|
  {
    if ids != [] {
      assert (ids + [pid])[1..] == ids[1..] + [pid];
      SumRelatedAppend(accounts, ids[1..], pid);
    }
  }

  lemma {:induction false} RelatedToEmptyOutside(accounts: seq<UserAccount>, pid: int)
    requires pid !in PartnerIdSet(accounts)
    ensures RelatedTo(accounts, pid) == []
  {
    if accounts != [] {
      var init := accounts[..|accounts| - 1];
      var a := accounts[|accounts| - 1];
      assert accounts == init + [a];
      AccountsSnoc(init, a);
      RelatedToEmptyOutside(init, pid);
    }
  }

  /** Over all partners, the related-account counts add up to the number of partnered accounts. */
  lemma {:induction false} RelatedCountsAddUp(accounts: seq<UserAccount>)
    ensures SumRelated(accounts, PartnerIds(accounts)) == |PartneredOnly(accounts)|
  {
    if accounts != [] {
      var init := accounts[..|accounts| - 1];
      var a := accounts[|accounts| - 1];
      assert accounts == init + [a];
      RelatedCountsAddUp(init);
      AccountsSnoc(init, a);
      var ids := PartnerIds(init);
      SumRelatedSnoc(init, a, ids);
      if a.partner.Some? && a.partner.value.id !in ids {
        SumRelatedAppend(accounts, ids, a.partner.value.id);
        RelatedToEmptyOutside(init, a.partner.value.id);
      }
    }
  }

  lemma {:induction false} TotalRelatedIsSumRelated(rs: seq<DistributionPartnerAccount>, accounts: seq<UserAccount>, ids: seq<int>)
    requires |rs| == |ids|
    requires forall k :: 0 <= k < |rs| ==> |rs[k].relatedAccounts| == |RelatedTo(accounts, ids[k])|
    ensures TotalRelated(rs) == SumRelated(accounts, ids)
  {
    if rs != [] {
      TotalRelatedIsSumRelated(rs[1..], accounts, ids[1..]);
    }
  }

  /** The related accounts of all records together number exactly the partnered accounts. */
  lemma AllPartneredAccountsListed(totals: map<int, AccountPayout>, accounts: seq<UserAccount>,
                                   displayName: UserAccount -> string)
    requires Covered(totals, accounts)
    ensures TotalRelated(PartnerRecords(totals, accounts, displayName).value) == |PartneredOnly(accounts)|
  {
    var rs := PartnerRecords(totals, accounts, displayName).value;
    TotalRelatedIsSumRelated(rs, accounts, PartnerIds(accounts));
    RelatedCountsAddUp(accounts);
  }

  // ---------------------------------------------------------------------
  // The lookup
  // ---------------------------------------------------------------------

  /** `prisma.accounts.findMany`: the accounts whose id is among `ids` and that have a
      distribution partner, in the directory's order. */
  function FindPartneredAccounts(directory: seq<UserAccount>, ids: set<int>): (rows: seq<UserAccount>)
    ensures forall a :: a in rows <==> a in directory && a.id in ids && Partnered(a)
  {
    if directory == [] then []
    else
      var init := directory[..|directory| - 1];
      var a := directory[|directory| - 1];
      assert directory == init + [a];
      FindPartneredAccounts(init, ids) + (if a.id in ids && Partnered(a) then [a] else [])
  }

  /** The resolved accounts all carry ids of the batch, so each has a total and the
      grouping never throws. */
  lemma ResolvedAccountsHaveTotals(payouts: seq<Payout>, directory: seq<UserAccount>,
                                   displayName: UserAccount -> string)
    ensures var rows := FindPartneredAccounts(directory, AccountIds(payouts));
      && (forall a :: a in rows ==> a.id in AccountIds(payouts))
      && Covered(TotalPayoutSums(payouts), rows)
      && PartnerRecords(TotalPayoutSums(payouts), rows, displayName).Some?
  {
  }

  // ---------------------------------------------------------------------
  // Sending
  // ---------------------------------------------------------------------

  const Subject: string := "Tito klienti mají právě splacené investice"

  datatype TemplateName = ClientGotPaidNoticeTemplate

  datatype AccountPayoutData = AccountPayoutData(userEmail: Option<string>, payoutAmount: string, userFullName: string)

  /** One `sendEmail` call: subject, template, recipient and template data. */
  datatype Email = Email(subject: string, template: TemplateName, to: string,
                         opportunityTitle: string, accountsPayoutData: seq<AccountPayoutData>)

  /** JavaScript truthiness of a nullable string. */
  predicate Truthy(email: Option<string>) {
    email.Some? && email.value != ""
  }

  /** `.filter(partner => partner.email)`. */
  function WithEmail(partners: seq<DistributionPartnerAccount>): (r: seq<DistributionPartnerAccount>)
    ensures forall p :: p in r ==> p in partners && Truthy(p.email)
  {
    if partners == [] then []
    else
      var init := partners[..|partners| - 1];
      var p := partners[|partners| - 1];
      assert partners == init + [p];
      WithEmail(init) + (if Truthy(p.email) then [p] else [])
  }

  function PayoutData(account: RelatedAccount, formatAmount: (real, Currency) -> string): AccountPayoutData {
    AccountPayoutData(account.email, formatAmount(account.payoutAmount, account.currency), account.formattedName)
  }

  function EmailFor(partner: DistributionPartnerAccount, title: string,
                    formatAmount: (real, Currency) -> string): Email
    requires Truthy(partner.email)
  {
    Email(Subject, ClientGotPaidNoticeTemplate, partner.email.value, title,
          seq(|partner.relatedAccounts|, j requires 0 <= j < |partner.relatedAccounts| =>
            PayoutData(partner.relatedAccounts[j], formatAmount)))
  }

  /** The sends `Promise.all` starts, one per partner with a truthy e-mail, in record order. */
  function PartnerEmails(partners: seq<DistributionPartnerAccount>, title: string,
                         formatAmount: (real, Currency) -> string): (emails: seq<Email>)
    ensures |emails| == |WithEmail(partners)|
  {
    var targets := WithEmail(partners);
    seq(|targets|, k requires 0 <= k < |targets| => EmailFor(targets[k], title, formatAmount))
  }

  /** Among distinct partners, each with a truthy e-mail is a send target exactly once and
      each other one never. */
  lemma {:induction false} OneSendPerPartnerWithEmail(partners: seq<DistributionPartnerAccount>)
    requires forall i, j :: 0 <= i < j < |partners| ==> partners[i].id != partners[j].id
    ensures forall p :: p in partners ==> multiset(WithEmail(partners))[p] == if Truthy(p.email) then 1 else 0
  {
    if partners != [] {
      var init := partners[..|partners| - 1];
      var last := partners[|partners| - 1];
      assert partners == init + [last];
      OneSendPerPartnerWithEmail(init);
      assert last !in init by {
        forall i | 0 <= i < |init| ensures init[i] != last {
          assert init[i] == partners[i];
        }
      }
      assert last !in WithEmail(init);
      forall p | p in partners
        ensures multiset(WithEmail(partners))[p] == if Truthy(p.email) then 1 else 0
      {
        assert multiset(WithEmail(partners)) ==
          multiset(WithEmail(init)) + multiset(if Truthy(last.email) then [last] else []);
        if p != last {
          assert p in init;
        }
      }
    }
  }

  /** Each send's data lists one entry per related account of its partner, in order. */
  lemma SendDataFollowsRelatedAccounts(partners: seq<DistributionPartnerAccount>, title: string,
                                       formatAmount: (real, Currency) -> string)
    ensures var emails, targets := PartnerEmails(partners, title, formatAmount), WithEmail(partners);
      forall k :: 0 <= k < |emails| ==>
        && emails[k].to == targets[k].email.value
        && emails[k].subject == Subject && emails[k].template == ClientGotPaidNoticeTemplate
        && emails[k].opportunityTitle == title
        && |emails[k].accountsPayoutData| == |targets[k].relatedAccounts|
        && forall j :: 0 <= j < |targets[k].relatedAccounts| ==>
             emails[k].accountsPayoutData[j] == PayoutData(targets[k].relatedAccounts[j], formatAmount)
  {
    var targets := WithEmail(partners);
    assert forall k :: 0 <= k < |targets| ==> targets[k] in targets;
  }

  // ---------------------------------------------------------------------
  // The whole notification
  // ---------------------------------------------------------------------

  /** The sends a successful lookup leads to; None when the grouping throws. */
  function Notifications(payouts: seq<Payout>, accounts: seq<UserAccount>, title: string,
                         displayName: UserAccount -> string,
                         formatAmount: (real, Currency) -> string): (r: Option<seq<Email>>)
    ensures r.None? <==> exists a :: a in accounts && Partnered(a) && a.id !in AccountIds(payouts)
  {
    match PartnerRecords(TotalPayoutSums(payouts), accounts, displayName)
    case None => None
    case Some(partners) => Some(PartnerEmails(partners, title, formatAmount))
  }

  /** What the `catch` logs. */
  datatype LoggedError = LookupFailed | MissingTotal | SendFailed

  /** `notifyDistributionPartnersAboutClientsPayouts`. `lookup` is the reply of the account
      lookup (None when it fails); `delivered` says which sends succeed. The function never
      throws: every failure ends in the log. */
  method NotifyDistributionPartnersAboutClientsPayouts(
    payouts: seq<Payout>, title: string, lookup: Option<seq<UserAccount>>,
    displayName: UserAccount -> string, formatAmount: (real, Currency) -> string,
    delivered: Email -> bool)
    returns (attempted: seq<Email>, logged: Option<LoggedError>)
    ensures lookup.None? ==> attempted == [] && logged == Some(LookupFailed)
    ensures lookup.Some? && Notifications(payouts, lookup.value, title, displayName, formatAmount).None? ==>
      attempted == [] && logged == Some(MissingTotal)
    ensures lookup.Some? && Notifications(payouts, lookup.value, title, displayName, formatAmount).Some? ==>
      attempted == Notifications(payouts, lookup.value, title, displayName, formatAmount).value
      && (logged.None? <==> forall k :: 0 <= k < |attempted| ==> delivered(attempted[k]))
      && (logged.Some? ==> logged == Some(SendFailed))
  {
    attempted := [];
    if lookup.None? {
      logged := Some(LookupFailed);
      return;
    }
    var userAccounts := lookup.value;
    var totalPayoutSumByAccountId := AggregateTotals(payouts);
    var distributionPartnerAccounts := GroupByPartner(totalPayoutSumByAccountId, userAccounts, displayName);
    if distributionPartnerAccounts.None? {
      logged := Some(MissingTotal);
      return;
    }
    attempted := PartnerEmails(distributionPartnerAccounts.value, title, formatAmount);
    if forall k | 0 <= k < |attempted| :: delivered(attempted[k]) {
      logged := None;
    } else {
      logged := Some(SendFailed);
    }
  }

  /** With the accounts the lookup resolves, the only thing ever logged is a failed send (or
      the lookup itself failing). */
  lemma LookupRowsNeverMissTotals(payouts: seq<Payout>, directory: seq<UserAccount>, title: string,
                                  displayName: UserAccount -> string, formatAmount: (real, Currency) -> string)
    ensures Notifications(payouts, FindPartneredAccounts(directory, AccountIds(payouts)), title,
                          displayName, formatAmount).Some?
  {
    ResolvedAccountsHaveTotals(payouts, directory, displayName);
  }

  // ---------------------------------------------------------------------
  // A worked example
  // ---------------------------------------------------------------------

  lemma ExampleTotals()
    ensures var batch := [Payout(1, 1000.0, "CZK"), Payout(1, 500.0, "CZK"), Payout(2, 2000.0, "CZK")];
      && AccountIds(batch) == {1, 2}
      && TotalPayoutSums(batch)[1] == AccountPayout(1500.0, "CZK")
      && TotalPayoutSums(batch)[2] == AccountPayout(2000.0, "CZK")
  {
    var p1, p2, p3 := Payout(1, 1000.0, "CZK"), Payout(1, 500.0, "CZK"), Payout(2, 2000.0, "CZK");
    var b1 := [p1];
    var b2 := b1 + [p2];
    var b3 := b2 + [p3];
    assert b1 == [] + [p1];
    assert b3 == [p1, p2, p3];
    assert AccountIds([]) == {};
    AccountIdsSnoc([], p1);
    AccountIdsSnoc(b1, p2);
    AccountIdsSnoc(b2, p3);
    assert AccountIds(b3) == {1, 2};
    SnocTotals([], p1, 1);
    SnocTotals(b1, p2, 1);
    SnocTotals(b2, p3, 1);
    SnocTotals([], p1, 2);
    SnocTotals(b1, p2, 2);
    SnocTotals(b2, p3, 2);
    assert SumFor(b3, 1) == 1500.0 && FirstCurrency(b3, 1) == "CZK";
    assert SumFor(b3, 2) == 2000.0 && FirstCurrency(b3, 2) == "CZK";
  }

  /** Two accounts of one partner: one partner id, both accounts related, in order. */
  lemma TwoAccountsOfOnePartner(a1: UserAccount, a2: UserAccount)
    requires a1.partner.Some? && a2.partner == a1.partner
    ensures var pid := a1.partner.value.id;
      && PartnerIdSet([a1, a2]) == {pid}
      && PartnerIds([a1, a2]) == [pid]
      && RelatedTo([a1, a2], pid) == [a1, a2]
      && FirstPartnerEmail([a1, a2], pid) == a1.partner.value.email
  {
    var pid := a1.partner.value.id;
    assert [a1, a2][..1] == [a1] && [a1][..0] == [];
    assert PartnerIdSet([a1]) == {pid} by {
      assert forall a :: a in [a1] <==> a == a1;
    }
    assert PartnerIdSet([a1, a2]) == {pid} by {
      assert forall a :: a in [a1, a2] <==> a == a1 || a == a2;
    }
    assert PartnerIds([a1]) == [pid];
    assert RelatedTo([a1], pid) == [a1];
  }

  lemma ExampleGrouping(a1: UserAccount, a2: UserAccount, totals: map<int, AccountPayout>,
                        displayName: UserAccount -> string)
    requires a1.partner.Some? && a2.partner == a1.partner
    requires a1.id in totals && a2.id in totals
    ensures PartnerRecords(totals, [a1, a2], displayName) ==
      Some([DistributionPartnerAccount(a1.partner.value.id, a1.partner.value.email,
                                       [Entry(totals, a1, displayName), Entry(totals, a2, displayName)])])
  {
    var pid := a1.partner.value.id;
    var accounts := [a1, a2];
    TwoAccountsOfOnePartner(a1, a2);
    assert Covered(totals, accounts);
    var record := PartnerRecordOf(totals, accounts, pid, displayName);
    assert record.relatedAccounts == [Entry(totals, a1, displayName), Entry(totals, a2, displayName)];
    var rs := PartnerRecords(totals, accounts, displayName).value;
    assert |rs| == 1 && rs[0] == record;
    assert rs == [record];
  }

  /** The batch 1000 and 500 CZK for account 1 and 2000 CZK for account 2, both accounts
      with the same partner at "p@x.com": one e-mail goes to the partner, listing
      1500 CZK for account 1 and 2000 CZK for account 2. */
  lemma ExampleOneEmailForTwoClients(a1: UserAccount, a2: UserAccount, pid: int, title: string,
                                     displayName: UserAccount -> string, formatAmount: (real, Currency) -> string)
    requires a1.id == 1 && a2.id == 2
    requires a1.partner == Some(PartnerRef(pid, Some("p@x.com"))) && a2.partner == a1.partner
    ensures var batch := [Payout(1, 1000.0, "CZK"), Payout(1, 500.0, "CZK"), Payout(2, 2000.0, "CZK")];
      Notifications(batch, [a1, a2], title, displayName, formatAmount) ==
        Some([Email(Subject, ClientGotPaidNoticeTemplate, "p@x.com", title,
                    [AccountPayoutData(a1.email, formatAmount(1500.0, "CZK"), displayName(a1)),
                     AccountPayoutData(a2.email, formatAmount(2000.0, "CZK"), displayName(a2))])])
  {
    var batch := [Payout(1, 1000.0, "CZK"), Payout(1, 500.0, "CZK"), Payout(2, 2000.0, "CZK")];
    ExampleTotals();
    var totals := TotalPayoutSums(batch);
    ExampleGrouping(a1, a2, totals, displayName);
    var record := DistributionPartnerAccount(pid, Some("p@x.com"),
                                             [Entry(totals, a1, displayName), Entry(totals, a2, displayName)]);
    OneRecordOneEmail(record, title, formatAmount);
    assert EmailFor(record, title, formatAmount).accountsPayoutData ==
      [AccountPayoutData(a1.email, formatAmount(1500.0, "CZK"), displayName(a1)),
       AccountPayoutData(a2.email, formatAmount(2000.0, "CZK"), displayName(a2))];
  }

  /** A single record with an e-mail gives a single send. */
  lemma OneRecordOneEmail(record: DistributionPartnerAccount, title: string,
                          formatAmount: (real, Currency) -> string)
    requires Truthy(record.email)
    ensures PartnerEmails([record], title, formatAmount) == [EmailFor(record, title, formatAmount)]
  {
    assert [record][..0] == [];
    assert WithEmail([record]) == [record];
  }
}
