/** The persistent store as values: the `players` table keyed by Discord id
    (each Steam id held by at most one player), the append-only
    `purchase_logs` table and the `authorized_users` set. Each operation is
    one atomic step over the whole ledger. */
module Database {
  import opened Common

  /** A row of `players`, keyed by its Discord id in `Ledger.players`. */
  datatype Account = Account(steamId: string, coin: int)

  /** A row of `purchase_logs`; `at` is the time the row was written. */
  datatype PurchaseRecord = PurchaseRecord(discordId: string, steamId: string, itemName: string, price: int, at: int)

  datatype Ledger = Ledger(players: map<string, Account>, purchases: seq<PurchaseRecord>, authorized: set<string>)

  /** The freshly created tables. */
  const EmptyLedger: Ledger := Ledger(map[], [], {})

  /** The UNIQUE constraint on `steam_id`. */
  ghost predicate SteamIdsUnique(l: Ledger)
  {
    forall d1, d2 :: d1 in l.players && d2 in l.players && d1 != d2 ==>
      l.players[d1].steamId != l.players[d2].steamId
  }

  /** The Steam id is already held by a player other than `discordId`. */
  predicate SteamIdHeldByOther(l: Ledger, discordId: string, steamId: string)
  {
    exists d :: d in l.players && d != discordId && l.players[d].steamId == steamId
  }

  /** Every balance is non-negative. */
  ghost predicate BalancesNonNegative(l: Ledger)
  {
    forall d :: d in l.players ==> l.players[d].coin >= 0
  }

  /** `get_player_by_discord_id`. */
  function GetPlayerByDiscordId(l: Ledger, discordId: string): (p: Option<Account>)
    ensures p.Some? <==> discordId in l.players
    ensures p.Some? ==> p.value == l.players[discordId]
  {
    if discordId in l.players then Some(l.players[discordId]) else None
  }

  /** `add_or_update_player`: an upsert on the Discord id that sets both the
      Steam id and the balance. When the Steam id belongs to another player
      the UNIQUE constraint rejects the statement: the result is false and
      nothing changes. */
  function AddOrUpdatePlayer(l: Ledger, discordId: string, steamId: string, coin: int): (res: (Ledger, bool))
    ensures res.1 <==> !SteamIdHeldByOther(l, discordId, steamId)
    ensures !res.1 ==> res.0 == l
    ensures res.1 ==> res.0 == l.(players := l.players[discordId := Account(steamId, coin)])
  {
    if SteamIdHeldByOther(l, discordId, steamId) then (l, false)
    else (l.(players := l.players[discordId := Account(steamId, coin)]), true)
  }

  /** An upsert keeps Steam ids unique. */
  lemma AddOrUpdatePreservesUniqueness(l: Ledger, discordId: string, steamId: string, coin: int)
    requires SteamIdsUnique(l)
    ensures SteamIdsUnique(AddOrUpdatePlayer(l, discordId, steamId, coin).0)
  {
    var l' := AddOrUpdatePlayer(l, discordId, steamId, coin).0;
    forall d1, d2 | d1 in l'.players && d2 in l'.players && d1 != d2
      ensures l'.players[d1].steamId != l'.players[d2].steamId
    {
      if d1 == discordId && l' != l {
        assert !(d2 in l.players && d2 != discordId && l.players[d2].steamId == steamId);
      } else if d2 == discordId && l' != l {
        assert !(d1 in l.players && d1 != discordId && l.players[d1].steamId == steamId);
      }
    }
  }

  /** `update_coin`: sets the balance of the player with that Discord id; an
      unknown id matches no row, succeeds and changes nothing. */
  function UpdateCoin(l: Ledger, discordId: string, newCoin: int): (l': Ledger)
    ensures l'.purchases == l.purchases && l'.authorized == l.authorized
    ensures l'.players.Keys == l.players.Keys
    ensures discordId in l.players ==> l'.players[discordId] == l.players[discordId].(coin := newCoin)
    ensures forall d :: d in l.players && d != discordId ==> l'.players[d] == l.players[d]
  {
    if discordId in l.players then
      l.(players := l.players[discordId := l.players[discordId].(coin := newCoin)])
    else l
  }

  /** `remove_coin`: a read of the balance followed by a write of the reduced
      balance, as one step here. */
  function RemoveCoin(l: Ledger, discordId: string, amount: int): (res: (Ledger, bool))
    ensures res.1 <==> discordId in l.players && l.players[discordId].coin >= amount
    ensures !res.1 ==> res.0 == l
    ensures res.1 ==> discordId in res.0.players && res.0.players[discordId].coin == l.players[discordId].coin - amount
  {
    match GetPlayerByDiscordId(l, discordId)
    case None => (l, false)
    case Some(p) =>
      if p.coin < amount then (l, false)
      else (UpdateCoin(l, discordId, p.coin - amount), true)
  }

  /** The debit succeeds exactly for a registered player whose balance covers
      the amount; it then lowers that balance by the amount and touches no
      other row, and otherwise changes nothing. */
  lemma RemoveCoinSpec(l: Ledger, discordId: string, amount: int)
    ensures RemoveCoin(l, discordId, amount).1 <==> discordId in l.players && l.players[discordId].coin >= amount
    ensures !RemoveCoin(l, discordId, amount).1 ==> RemoveCoin(l, discordId, amount).0 == l
    ensures RemoveCoin(l, discordId, amount).1 ==>
      var l' := RemoveCoin(l, discordId, amount).0;
      && l'.players.Keys == l.players.Keys
      && l'.players[discordId] == Account(l.players[discordId].steamId, l.players[discordId].coin - amount)
      && (forall d :: d in l.players && d != discordId ==> l'.players[d] == l.players[d])
      && l'.purchases == l.purchases && l'.authorized == l.authorized
  {
  }

  /** A non-negative debit keeps every balance non-negative and Steam ids unique. */
  lemma RemoveCoinPreservesInvariants(l: Ledger, discordId: string, amount: int)
    requires amount >= 0
    requires BalancesNonNegative(l) && SteamIdsUnique(l)
    ensures BalancesNonNegative(RemoveCoin(l, discordId, amount).0)
    ensures SteamIdsUnique(RemoveCoin(l, discordId, amount).0)
  {
    var l' := RemoveCoin(l, discordId, amount).0;
    forall d1, d2 | d1 in l'.players && d2 in l'.players && d1 != d2
      ensures l'.players[d1].steamId != l'.players[d2].steamId
    {
      assert l'.players[d1].steamId == l.players[d1].steamId;
      assert l'.players[d2].steamId == l.players[d2].steamId;
    }
  }

  /** `log_purchase`: appends one record. */
  function LogPurchase(l: Ledger, rec: PurchaseRecord): (l': Ledger)
    ensures |l'.purchases| == |l.purchases| + 1
    ensures l'.purchases[..|l.purchases|] == l.purchases
    ensures l'.purchases[|l.purchases|] == rec
    ensures l'.players == l.players && l'.authorized == l.authorized
  {
    l.(purchases := l.purchases + [rec])
  }

  /** `is_authorized`: a count of matching rows greater than zero. */
  function IsAuthorized(l: Ledger, userId: string): (r: bool)
    ensures r <==> AddAuthorizedUser(l, userId) == l
  {
    userId in l.authorized
  }

  /** `add_authorized_user`: INSERT OR IGNORE into a UNIQUE column. */
  function AddAuthorizedUser(l: Ledger, userId: string): (l': Ledger)
    ensures l'.players == l.players && l'.purchases == l.purchases
    ensures userId in l'.authorized
  {
    l.(authorized := l.authorized + {userId})
  }

  /** Adding a user authorises exactly that user in addition to the others,
      and adding the same user twice is the same as adding them once. */
  lemma AddAuthorizedUserSpec(l: Ledger, userId: string, other: string)
    ensures IsAuthorized(AddAuthorizedUser(l, userId), other) <==> other == userId || IsAuthorized(l, other)
    ensures AddAuthorizedUser(AddAuthorizedUser(l, userId), userId) == AddAuthorizedUser(l, userId)
  {
  }
}
