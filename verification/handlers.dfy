/** The interaction side of the bot: the component-interaction gate, the
    shop purchase transaction, the VIP tier choice, the command rewriting
    for purchases, the queue drain that types purchased batches into the
    game, and the bulk destroy runs (manual and scheduled).

    Every handler is one atomic step over `State`. The game window is
    abstracted to a flag saying whether it was found; what reaches the game
    is the sequence of typed lines. */
module Handlers {
  import opened Common
  import opened Config
  import opened Utils
  import opened Database
  import opened SharedState

  // ---------------------------------------------------------------------
  // Catalogue lookup
  // ---------------------------------------------------------------------

  /** A button together with the item it belongs to. */
  datatype Entry = Entry(item: ShopItem, button: ShopButton)

  /** The entries of one item, in button order. */
  function ButtonEntries(item: ShopItem, buttons: seq<ShopButton>): seq<Entry>
  {
    if |buttons| == 0 then [] else [Entry(item, buttons[0])] + ButtonEntries(item, buttons[1..])
  }

  /** The entries of a list of items, item by item. */
  function ItemsEntries(items: seq<ShopItem>): seq<Entry>
  {
    if |items| == 0 then [] else ButtonEntries(items[0], items[0].buttons) + ItemsEntries(items[1..])
  }

  /** Every button of the catalogue in the order the lookup visits them:
      shop by shop, item by item, button by button. */
  function CatalogEntries(shops: seq<ShopConfig>): seq<Entry>
  {
    if |shops| == 0 then [] else ItemsEntries(shops[0].items) + CatalogEntries(shops[1..])
  }

  /** Position of the first entry whose button has trigger `trigger`, or -1. */
  function FirstMatchIndex(entries: seq<Entry>, trigger: string): (k: int)
    ensures -1 <= k < |entries|
    ensures k == -1 <==> forall j :: 0 <= j < |entries| ==> entries[j].button.trigger != trigger
    ensures k >= 0 ==> (entries[k].button.trigger == trigger
      && forall j :: 0 <= j < k ==> entries[j].button.trigger != trigger)
    decreases |entries|
  {
    if |entries| == 0 then -1
    else if entries[0].button.trigger == trigger then 0
    else
      var k := FirstMatchIndex(entries[1..], trigger);
      if k == -1 then -1 else k + 1
  }

  /** The first entry whose button has trigger `trigger`. */
  function FirstMatch(entries: seq<Entry>, trigger: string): (r: Option<Entry>)
    ensures r.None? <==> forall k :: 0 <= k < |entries| ==> entries[k].button.trigger != trigger
    ensures r.Some? ==> exists k :: (0 <= k < |entries| && entries[k] == r.value
      && r.value.button.trigger == trigger
      && forall j :: 0 <= j < k ==> entries[j].button.trigger != trigger)
  {
    var k := FirstMatchIndex(entries, trigger);
    if k == -1 then None else Some(entries[k])
  }

  lemma {:induction false} FirstMatchAppend(a: seq<Entry>, b: seq<Entry>, trigger: string)
    ensures FirstMatch(a + b, trigger) == if FirstMatch(a, trigger).Some? then FirstMatch(a, trigger) else FirstMatch(b, trigger)
    decreases |a|
  {
    if |a| == 0 {
      assert a + b == b;
    } else {
      assert (a + b)[0] == a[0];
      assert (a + b)[1..] == a[1..] + b;
      FirstMatchAppend(a[1..], b, trigger);
    }
  }

  /** The innermost loop: the first button of `item` with the trigger. */
  function FindInButtons(item: ShopItem, buttons: seq<ShopButton>, trigger: string): (r: Option<Entry>)
    ensures r == FirstMatch(ButtonEntries(item, buttons), trigger)
    decreases |buttons|
  {
    if |buttons| == 0 then None
    else if buttons[0].trigger == trigger then Some(Entry(item, buttons[0]))
    else
      FirstMatchAppend([Entry(item, buttons[0])], ButtonEntries(item, buttons[1..]), trigger);
      FindInButtons(item, buttons[1..], trigger)
  }

  /** The middle loop: the first item with a matching button. */
  function FindInItems(items: seq<ShopItem>, trigger: string): (r: Option<Entry>)
    ensures r == FirstMatch(ItemsEntries(items), trigger)
    decreases |items|
  {
    if |items| == 0 then None
    else
      FirstMatchAppend(ButtonEntries(items[0], items[0].buttons), ItemsEntries(items[1..]), trigger);
      match FindInButtons(items[0], items[0].buttons, trigger)
      case Some(e) => Some(e)
      case None => FindInItems(items[1..], trigger)
  }

  /** The lookup in `handle_shop_interaction`: the three nested loops over
      shops, items and buttons, each stopping at the first match. It finds
      the first button of the catalogue that carries the trigger. */
  function FindButton(shops: seq<ShopConfig>, trigger: string): (r: Option<Entry>)
    ensures r == FirstMatch(CatalogEntries(shops), trigger)
    decreases |shops|
  {
    if |shops| == 0 then None
    else
      FirstMatchAppend(ItemsEntries(shops[0].items), CatalogEntries(shops[1..]), trigger);
      match FindInItems(shops[0].items, trigger)
      case Some(e) => Some(e)
      case None => FindButton(shops[1..], trigger)
  }

  // ---------------------------------------------------------------------
  // VIP tier and price
  // ---------------------------------------------------------------------

  /** `get_vip_tier`: the VIP role with the highest tier among the member's
      roles, scanning left to right and replacing the current choice only
      on a strictly higher tier. */
  function VipTier(roles: seq<nat>, table: map<nat, VipRole>): (best: Option<VipRole>)
    ensures best.None? <==> forall i :: 0 <= i < |roles| ==> roles[i] !in table
    ensures best.Some? ==> forall j :: 0 <= j < |roles| && roles[j] in table ==> table[roles[j]].tier <= best.value.tier
    ensures best.Some? ==> exists i :: (0 <= i < |roles| && roles[i] in table && table[roles[i]] == best.value
      && forall j :: 0 <= j < i && roles[j] in table ==> table[roles[j]].tier < best.value.tier)
    decreases |roles|
  {
    if |roles| == 0 then None
    else
      var init := roles[..|roles| - 1];
      var prev := VipTier(init, table);
      var r := roles[|roles| - 1];
      if r in table && (prev.None? || table[r].tier > prev.value.tier) then
        assert forall j :: 0 <= j < |init| ==> init[j] == roles[j];
        Some(table[r])
      else
        assert forall j :: 0 <= j < |init| ==> init[j] == roles[j];
        prev
  }

  /** The member's discount: none without a VIP role, otherwise the
      discount of a held VIP role whose tier no other held role exceeds. */
  function DiscountPercent(roles: seq<nat>, table: map<nat, VipRole>): (p: nat)
    ensures (forall i :: 0 <= i < |roles| ==> roles[i] !in table) ==> p == 0
    ensures (exists i :: 0 <= i < |roles| && roles[i] in table) ==>
      exists i :: 0 <= i < |roles| && roles[i] in table && p == table[roles[i]].discountPercent
        && forall j :: 0 <= j < |roles| && roles[j] in table ==> table[roles[j]].tier <= table[roles[i]].tier
  {
    match VipTier(roles, table)
    case None => 0
    case Some(v) => v.discountPercent
  }

  /** With the shipped table, a member holding the Diamond role gets
      Diamond's 60% whatever other roles they hold and in whatever order. */
  lemma {:induction false} DiamondAlwaysWins(roles: seq<nat>, k: int)
    requires 0 <= k < |roles| && roles[k] == DiamondRoleId
    ensures VipTier(roles, VipRoles) == Some(VipRoles[DiamondRoleId])
    ensures DiscountPercent(roles, VipRoles) == 60
  {
    VipTableShape();
    var best := VipTier(roles, VipRoles);
    assert best.value.tier >= 4;
    var i :| 0 <= i < |roles| && roles[i] in VipRoles && VipRoles[roles[i]] == best.value;
    assert roles[i] == DiamondRoleId;
  }

  /** With the shipped table, whose discounts rise with the tier, the
      member gets the largest discount among the VIP roles they hold, so
      no discount at all exactly when every VIP role they hold is Silver's
      0%. */
  lemma ShippedDiscountIsLargestHeld(roles: seq<nat>)
    ensures forall j :: 0 <= j < |roles| && roles[j] in VipRoles ==>
      VipRoles[roles[j]].discountPercent <= DiscountPercent(roles, VipRoles)
    ensures DiscountPercent(roles, VipRoles) == 0 <==>
      forall j :: 0 <= j < |roles| && roles[j] in VipRoles ==> VipRoles[roles[j]].discountPercent == 0
  {
    VipDiscountsOrdered();
    var p := DiscountPercent(roles, VipRoles);
    if exists i :: 0 <= i < |roles| && roles[i] in VipRoles {
      var i :| 0 <= i < |roles| && roles[i] in VipRoles && p == VipRoles[roles[i]].discountPercent
        && forall j :: 0 <= j < |roles| && roles[j] in VipRoles ==> VipRoles[roles[j]].tier <= VipRoles[roles[i]].tier;
      assert forall j :: 0 <= j < |roles| && roles[j] in VipRoles ==> VipRoles[roles[j]].discountPercent <= p;
    }
  }

  /** A member with no VIP role pays full price. */
  lemma NoVipNoDiscount(roles: seq<nat>)
    requires forall i :: 0 <= i < |roles| ==> roles[i] !in VipRoles
    ensures DiscountPercent(roles, VipRoles) == 0
  {
  }

  /** The price a member pays for a button: the item price times the
      button's quantity, less the member's VIP discount. */
  function PriceFor(cfg: Config, roles: seq<nat>, e: Entry): (price: nat)
    ensures var p := DiscountPercent(roles, cfg.vipRoles);
      var total := e.item.price * e.button.quantity;
      p <= 100 ==> price * 100 <= total * (100 - p) < (price + 1) * 100
    ensures DiscountPercent(roles, cfg.vipRoles) >= 100 ==> price == 0
    ensures price <= e.item.price * e.button.quantity
    ensures (forall i :: 0 <= i < |roles| ==> roles[i] !in cfg.vipRoles) ==> price == e.item.price * e.button.quantity
  {
    var percent := DiscountPercent(roles, cfg.vipRoles);
    NoDiscountChargesOriginal(e.item.price, e.button.quantity);
    CalculateDiscountedPrice(e.item.price, e.button.quantity, percent).discounted
  }

  // ---------------------------------------------------------------------
  // Command rewriting
  // ---------------------------------------------------------------------

  const LocationKeyword: string := "Location"

  /** A command that needs no location: a special command, or one that
      already names a location. */
  ghost predicate Located(cmd: string, specials: seq<string>)
  {
    IsSpecialCommand(cmd, specials) || IsSubstring(LocationKeyword, cmd)
  }

  /** Appends ` Location <steam id>` to a command that needs a location. */
  function RewriteCommand(cmd: string, steamId: string, specials: seq<string>): (r: string)
    ensures Located(cmd, specials) ==> r == cmd
    ensures !Located(cmd, specials) ==> r == cmd + " " + LocationKeyword + " " + steamId
  {
    if !IsSpecialCommand(cmd, specials) && !Contains(cmd, LocationKeyword) then
      cmd + " " + LocationKeyword + " " + steamId
    else cmd
  }

  /** After rewriting, a command is special or names a location. */
  lemma RewrittenIsLocated(cmd: string, steamId: string, specials: seq<string>)
    ensures Located(RewriteCommand(cmd, steamId, specials), specials)
  {
    if !Located(cmd, specials) {
      var tail := " " + LocationKeyword + " " + steamId;
      assert tail[1..1 + |LocationKeyword|] == LocationKeyword;
      assert OccursAt(tail, LocationKeyword, 1);
      ContainsInSuffix(cmd, tail, LocationKeyword);
      assert cmd + " " + LocationKeyword + " " + steamId == cmd + tail;
    }
  }

  /** The location rewriting of a purchased batch, command by command. */
  function RewriteLocation(cmds: seq<string>, steamId: string, specials: seq<string>): (r: seq<string>)
    ensures |r| == |cmds|
    ensures forall i :: 0 <= i < |r| ==> r[i] == RewriteCommand(cmds[i], steamId, specials)
  {
    seq(|cmds|, i requires 0 <= i < |cmds| => RewriteCommand(cmds[i], steamId, specials))
  }

  /** After rewriting, every command of the batch is special or names a
      location, and rewriting again changes nothing. */
  lemma RewriteLocationSpec(cmds: seq<string>, steamId: string, specials: seq<string>)
    ensures forall i :: 0 <= i < |cmds| ==> Located(RewriteLocation(cmds, steamId, specials)[i], specials)
    ensures RewriteLocation(RewriteLocation(cmds, steamId, specials), steamId, specials)
      == RewriteLocation(cmds, steamId, specials)
  {
    var r := RewriteLocation(cmds, steamId, specials);
    forall i | 0 <= i < |cmds|
      ensures Located(r[i], specials)
    {
      RewrittenIsLocated(cmds[i], steamId, specials);
    }
  }

  /** The batch queued for a purchase: the button's commands with the
      buyer's Steam id substituted, then located. */
  function PurchaseBatch(cfg: Config, button: ShopButton, steamId: string): (batch: seq<string>)
    ensures |batch| == |button.commands|
    ensures forall i :: 0 <= i < |batch| ==>
      batch[i] == RewriteCommand(ReplaceAll(button.commands[i], SteamIdPlaceholder, steamId), steamId, cfg.specialCommands)
  {
    RewriteLocation(SubstituteSteamId(button.commands, steamId), steamId, cfg.specialCommands)
  }

  // ---------------------------------------------------------------------
  // The purchase transaction
  // ---------------------------------------------------------------------

  /** What a purchase attempt reports back. */
  datatype Outcome =
    | Busy
    | Ignored
    | NotRegistered
    | OnCooldown(remainingMillis: nat)
    | InsufficientFunds(price: nat, coin: int)
    | DebitFailed
    | Purchased(itemName: string, price: nat, balance: int)

  /** Whether the cooldown applies to a purchase made from `channel`. */
  predicate CooldownApplies(cfg: Config, channel: nat)
  {
    channel != cfg.exemptChannelId
  }

  /** The side effects of an accepted purchase, after the debit: queue the
      batch, log the sale, start the cooldown outside the exempt channel. */
  function Fulfil(s: State, cfg: Config, user: string, steamId: string, e: Entry, trigger: string, channel: nat, now: int, price: nat): (s': State)
  {
    var s1 := PushBatch(s, PurchaseBatch(cfg, e.button, steamId));
    var s2 := s1.(db := LogPurchase(s1.db, PurchaseRecord(user, steamId, e.item.name, price, now)));
    if CooldownApplies(cfg, channel) then SetCooldown(s2, user, trigger, now) else s2
  }

  /** `handle_shop_interaction`, in the code's order: lock probe, catalogue
      lookup, player lookup, cooldown, price, balance, debit, then the
      effects. Every rejection leaves the state as it was, and the lock
      probe never keeps the lock. */
  function ShopInteraction(s: State, cfg: Config, user: string, roles: seq<nat>, trigger: string, channel: nat, now: int): (res: (State, Outcome))
    ensures !res.1.Purchased? ==> res.0 == s
    ensures res.0.active == s.active && res.0.destroyLocked == s.destroyLocked
  {
    if s.destroyLocked then (s, Busy)
    else match FindButton(cfg.shopData, trigger)
      case None => (s, Ignored)
      case Some(e) =>
        match GetPlayerByDiscordId(s.db, user)
        case None => (s, NotRegistered)
        case Some(p) =>
          var cooldown := if CooldownApplies(cfg, channel) then CheckCooldown(s, user, trigger, now) else None;
          if cooldown.Some? then (s, OnCooldown(cooldown.value))
          else
            var price := PriceFor(cfg, roles, e);
            if p.coin < price then (s, InsufficientFunds(price, p.coin))
            else
              var (db1, ok) := RemoveCoin(s.db, user, price);
              if !ok then (s, DebitFailed)
              else
                (Fulfil(s.(db := db1), cfg, user, p.steamId, e, trigger, channel, now, price),
                 Purchased(e.item.name, price, p.coin - price))
  }

  /** All the guards of a purchase pass. */
  ghost predicate Accepts(s: State, cfg: Config, user: string, roles: seq<nat>, trigger: string, channel: nat, now: int)
  {
    && !s.destroyLocked
    && FindButton(cfg.shopData, trigger).Some?
    && user in s.db.players
    && (CooldownApplies(cfg, channel) ==> CheckCooldown(s, user, trigger, now).None?)
    && s.db.players[user].coin >= PriceFor(cfg, roles, FindButton(cfg.shopData, trigger).value)
  }

  /** A purchase goes through exactly when every guard passes; the debit
      itself never fails, since it re-checks what the balance guard checked. */
  lemma PurchaseIffAccepted(s: State, cfg: Config, user: string, roles: seq<nat>, trigger: string, channel: nat, now: int)
    ensures ShopInteraction(s, cfg, user, roles, trigger, channel, now).1.Purchased?
      <==> Accepts(s, cfg, user, roles, trigger, channel, now)
    ensures ShopInteraction(s, cfg, user, roles, trigger, channel, now).1 != DebitFailed
  {
    if Accepts(s, cfg, user, roles, trigger, channel, now) {
      RemoveCoinSpec(s.db, user, PriceFor(cfg, roles, FindButton(cfg.shopData, trigger).value));
    }
  }

  /** Which guard turned a purchase away, checked in the code's order. */
  lemma RejectionReasons(s: State, cfg: Config, user: string, roles: seq<nat>, trigger: string, channel: nat, now: int)
    ensures var o := ShopInteraction(s, cfg, user, roles, trigger, channel, now).1;
      && (o == Busy <==> s.destroyLocked)
      && (o == Ignored <==> !s.destroyLocked && FindButton(cfg.shopData, trigger).None?)
      && (o == NotRegistered <==> !s.destroyLocked && FindButton(cfg.shopData, trigger).Some? && user !in s.db.players)
      && (o.OnCooldown? ==> CooldownApplies(cfg, channel) && CheckCooldown(s, user, trigger, now) == Some(o.remainingMillis))
      && (o.InsufficientFunds? ==> user in s.db.players && o.coin == s.db.players[user].coin < o.price)
  {
  }

  /** An accepted purchase debits the buyer by exactly the price, appends
      exactly one batch to the end of the queue and one record to the end
      of the log, starts the cooldown outside the exempt channel, and
      changes nothing else. */
  lemma PurchaseEffects(s: State, cfg: Config, user: string, roles: seq<nat>, trigger: string, channel: nat, now: int)
    requires ShopInteraction(s, cfg, user, roles, trigger, channel, now).1.Purchased?
    ensures var (s', o) := ShopInteraction(s, cfg, user, roles, trigger, channel, now);
      var e := FindButton(cfg.shopData, trigger).value;
      var p := s.db.players[user];
      && FindButton(cfg.shopData, trigger).Some? && user in s.db.players
      && o == Purchased(e.item.name, PriceFor(cfg, roles, e), p.coin - PriceFor(cfg, roles, e))
      && s'.db.players.Keys == s.db.players.Keys
      && s'.db.players[user] == Account(p.steamId, p.coin - o.price)
      && (forall d :: d in s.db.players && d != user ==> s'.db.players[d] == s.db.players[d])
      && s'.queue == s.queue + [PurchaseBatch(cfg, e.button, p.steamId)]
      && s'.db.purchases == s.db.purchases + [PurchaseRecord(user, p.steamId, e.item.name, o.price, now)]
      && s'.db.authorized == s.db.authorized
      && s'.cooldowns == (if CooldownApplies(cfg, channel) then s.cooldowns[(user, trigger) := now] else s.cooldowns)
      && s'.active == s.active && s'.destroyLocked == s.destroyLocked
  {
    var e := FindButton(cfg.shopData, trigger).value;
    RemoveCoinSpec(s.db, user, PriceFor(cfg, roles, e));
  }

  /** A purchase never drives a balance below zero, and keeps every
      non-negative balance non-negative. */
  lemma PurchaseKeepsBalancesNonNegative(s: State, cfg: Config, user: string, roles: seq<nat>, trigger: string, channel: nat, now: int)
    requires BalancesNonNegative(s.db)
    ensures BalancesNonNegative(ShopInteraction(s, cfg, user, roles, trigger, channel, now).0.db)
  {
    if ShopInteraction(s, cfg, user, roles, trigger, channel, now).1.Purchased? {
      PurchaseEffects(s, cfg, user, roles, trigger, channel, now);
    }
  }

  // ---------------------------------------------------------------------
  // A series of purchases
  // ---------------------------------------------------------------------

  /** One button press on a shop message. */
  datatype Request = Request(user: string, roles: seq<nat>, trigger: string, channel: nat, now: int)

  /** Requests handled one after another. */
  function RunPurchases(s: State, cfg: Config, reqs: seq<Request>): (res: (State, seq<Outcome>))
    ensures |res.1| == |reqs|
    ensures res.0.active == s.active && res.0.destroyLocked == s.destroyLocked
    ensures s.destroyLocked ==> res.0 == s && forall i :: 0 <= i < |res.1| ==> res.1[i] == Busy
    decreases |reqs|
  {
    if |reqs| == 0 then (s, [])
    else
      var q := reqs[0];
      var (s1, o) := ShopInteraction(s, cfg, q.user, q.roles, q.trigger, q.channel, q.now);
      var (s2, os) := RunPurchases(s1, cfg, reqs[1..]);
      (s2, [o] + os)
  }

  /** What player `d` paid over a series of requests and their outcomes. */
  function SpentBy(reqs: seq<Request>, outcomes: seq<Outcome>, d: string): int
    requires |reqs| == |outcomes|
    decreases |reqs|
  {
    if |reqs| == 0 then 0
    else
      (if reqs[0].user == d && outcomes[0].Purchased? then outcomes[0].price else 0)
      + SpentBy(reqs[1..], outcomes[1..], d)
  }

  /** The number of purchases that went through. */
  function CountPurchased(outcomes: seq<Outcome>): nat
  {
    if |outcomes| == 0 then 0
    else (if outcomes[0].Purchased? then 1 else 0) + CountPurchased(outcomes[1..])
  }

  /** One purchase step in accounting terms: the buyer pays the price of
      an accepted purchase and nobody else pays anything, the set of
      players stays the same and the log grows by one record per sale. */
  lemma PurchaseStepAccounting(s: State, cfg: Config, q: Request)
    ensures var (s', o) := ShopInteraction(s, cfg, q.user, q.roles, q.trigger, q.channel, q.now);
      && s'.db.players.Keys == s.db.players.Keys
      && (forall d :: d in s.db.players ==>
            s'.db.players[d].coin == s.db.players[d].coin - (if q.user == d && o.Purchased? then o.price else 0))
      && |s'.db.purchases| == |s.db.purchases| + (if o.Purchased? then 1 else 0)
      && s'.db.purchases[..|s.db.purchases|] == s.db.purchases
      && |s'.queue| == |s.queue| + (if o.Purchased? then 1 else 0)
      && s'.queue[..|s.queue|] == s.queue
  {
    if ShopInteraction(s, cfg, q.user, q.roles, q.trigger, q.channel, q.now).1.Purchased? {
      PurchaseEffects(s, cfg, q.user, q.roles, q.trigger, q.channel, q.now);
    }
  }

  /** Over any series of purchases, every player's final balance is their
      initial balance less what they paid, and no player appears or
      disappears. */
  lemma {:induction false} RunPurchasesBalances(s: State, cfg: Config, reqs: seq<Request>)
    ensures var (s', outs) := RunPurchases(s, cfg, reqs);
      && s'.db.players.Keys == s.db.players.Keys
      && (forall d :: d in s.db.players ==> s'.db.players[d].coin == s.db.players[d].coin - SpentBy(reqs, outs, d))
    decreases |reqs|
  {
    if |reqs| > 0 {
      var q := reqs[0];
      var (s1, o) := ShopInteraction(s, cfg, q.user, q.roles, q.trigger, q.channel, q.now);
      PurchaseStepAccounting(s, cfg, q);
      RunPurchasesBalances(s1, cfg, reqs[1..]);
      var (s2, os) := RunPurchases(s1, cfg, reqs[1..]);
      assert ([o] + os)[1..] == os;
    }
  }

  /** Over any series of purchases, the log and the queue each grow by one
      entry per purchase, keeping the earlier entries in place. */
  lemma {:induction false} RunPurchasesLogAndQueue(s: State, cfg: Config, reqs: seq<Request>)
    ensures var (s', outs) := RunPurchases(s, cfg, reqs);
      && |s'.db.purchases| == |s.db.purchases| + CountPurchased(outs)
      && s'.db.purchases[..|s.db.purchases|] == s.db.purchases
      && |s'.queue| == |s.queue| + CountPurchased(outs)
      && s'.queue[..|s.queue|] == s.queue
    decreases |reqs|
  {
    if |reqs| > 0 {
      var q := reqs[0];
      var (s1, o) := ShopInteraction(s, cfg, q.user, q.roles, q.trigger, q.channel, q.now);
      PurchaseStepAccounting(s, cfg, q);
      RunPurchasesLogAndQueue(s1, cfg, reqs[1..]);
      var (s2, os) := RunPurchases(s1, cfg, reqs[1..]);
      assert ([o] + os)[1..] == os;
      assert s2.db.purchases[..|s.db.purchases|] == s2.db.purchases[..|s1.db.purchases|][..|s.db.purchases|];
      assert s2.queue[..|s.queue|] == s2.queue[..|s1.queue|][..|s.queue|];
    }
  }

  /** No series of purchases drives a balance below zero. */
  lemma {:induction false} RunPurchasesKeepsBalancesNonNegative(s: State, cfg: Config, reqs: seq<Request>)
    requires BalancesNonNegative(s.db)
    ensures BalancesNonNegative(RunPurchases(s, cfg, reqs).0.db)
    decreases |reqs|
  {
    if |reqs| > 0 {
      var q := reqs[0];
      var (s1, o) := ShopInteraction(s, cfg, q.user, q.roles, q.trigger, q.channel, q.now);
      PurchaseKeepsBalancesNonNegative(s, cfg, q.user, q.roles, q.trigger, q.channel, q.now);
      RunPurchasesKeepsBalancesNonNegative(s1, cfg, reqs[1..]);
    }
  }

  // ---------------------------------------------------------------------
  // The command queue drain
  // ---------------------------------------------------------------------

  /** The batches sent while the game window was found: `windows[i]` is
      the outcome of the window lookup made for batch `i`. */
  function FoundBatches(windows: seq<bool>, batches: seq<seq<string>>): (found: seq<seq<string>>)
    requires |windows| == |batches|
    ensures (forall i :: 0 <= i < |windows| ==> windows[i]) ==> found == batches
    ensures (forall i :: 0 <= i < |windows| ==> !windows[i]) ==> found == []
    decreases |batches|
  {
    if |batches| == 0 then []
    else
      var rest := FoundBatches(windows[1..], batches[1..]);
      assert forall i :: 1 <= i < |windows| ==> windows[1..][i - 1] == windows[i];
      if windows[0] then
        assert [batches[0]] + batches[1..] == batches;
        [batches[0]] + rest
      else rest
  }

  /** Types each batch in turn, in queue order. Each send looks the game
      window up afresh, so a batch whose lookup fails is dropped while the
      others are typed. */
  function SendBatches(windows: seq<bool>, batches: seq<seq<string>>): (lines: seq<string>)
    requires |windows| == |batches|
    ensures lines == TypedLines(Flatten(FoundBatches(windows, batches)))
    ensures (forall i :: 0 <= i < |windows| ==> windows[i]) ==> lines == TypedLines(Flatten(batches))
    ensures (forall i :: 0 <= i < |windows| ==> !windows[i]) ==> lines == []
    decreases |batches|
  {
    if |batches| == 0 then []
    else
      var rest := SendBatches(windows[1..], batches[1..]);
      var found := FoundBatches(windows[1..], batches[1..]);
      if windows[0] then
        TypedLinesAppend(batches[0], Flatten(found));
        assert ([batches[0]] + found)[1..] == found;
        SendCommandsToGame(windows[0], batches[0]) + rest
      else
        SendCommandsToGame(windows[0], batches[0]) + rest
  }

  /** A queue of two clean batches whose window lookups disagree: only the
      batch whose lookup succeeded is typed, and the other is lost, since
      the drain has already emptied the queue. */
  lemma DroppedBatchIsLost(b1: seq<string>, b2: seq<string>)
    requires AllClean(b1) && AllClean(b2)
    ensures SendBatches([true, false], [b1, b2]) == b1
    ensures SendBatches([false, true], [b1, b2]) == b2
  {
    FoundOneOfTwo(b1, b2);
    FlattenSingle(b1);
    FlattenSingle(b2);
    TypedLinesOfClean(b1);
    TypedLinesOfClean(b2);
  }

  lemma FoundOneOfTwo(b1: seq<string>, b2: seq<string>)
    ensures FoundBatches([true, false], [b1, b2]) == [b1]
    ensures FoundBatches([false, true], [b1, b2]) == [b2]
  {
    assert [true, false][1..] == [false] && [false, true][1..] == [true];
    assert [b1, b2][1..] == [b2];
  }

  /** One wake-up of `process_command_queue`: take the whole queue, leave it
      empty, and type the batches in push order, each batch in its own
      order, dropping those whose window lookup failed. */
  function ProcessQueueTick(s: State, windows: seq<bool>): (res: (State, seq<string>))
    requires |windows| == |s.queue|
    ensures res.0 == s.(queue := [])
    ensures res.1 == TypedLines(Flatten(FoundBatches(windows, s.queue)))
    ensures (forall i :: 0 <= i < |windows| ==> windows[i]) ==> res.1 == TypedLines(Flatten(s.queue))
    ensures (forall i :: 0 <= i < |windows| ==> !windows[i]) ==> res.1 == []
  {
    var (s', batches) := DrainQueue(s);
    (s', SendBatches(windows, batches))
  }

  // ---------------------------------------------------------------------
  // Bulk destroy
  // ---------------------------------------------------------------------

  /** The four bulk destroy runs: the two buttons and the two timers. */
  datatype BulkKind = ManualClothes | ManualMaterials | ScheduledClothes | ScheduledMaterials

  const DestroyType1Id: string := "destroy_type1"
  const DestroyType2Id: string := "destroy_type2"

  /** Seconds between scheduled runs: every 30 minutes for clothes, every
      2 hours for construction materials. */
  function ScheduleInterval(kind: BulkKind): (secs: nat)
    requires kind.ScheduledClothes? || kind.ScheduledMaterials?
    ensures kind.ScheduledClothes? ==> secs == 1800
    ensures kind.ScheduledMaterials? ==> secs == 7200
  {
    if kind.ScheduledClothes? then 1800 else 7200
  }

  const AnnouncePrefix: string := "#Announce "

  /** An in-game announcement line: the `#Announce` command with its text
      and a closing `!`; the text can be read back from the line. */
  function Announcement(text: string): (line: string)
    ensures IsClean(line)
    ensures |line| == |AnnouncePrefix| + |text| + 1
    ensures StartsWith(line, AnnouncePrefix) && line[|line| - 1] == '!'
    ensures line[|AnnouncePrefix|..|line| - 1] == text
  {
    var line := AnnouncePrefix + text + "!";
    assert line[0] == '#' && line[|line| - 1] == '!';
    line
  }

  /** The closing words of every start announcement: the bot is paused. */
  const PausedNotice: string := "บอทหยุดชั่วคราว"

  /** The closing words of every end announcement: the bot can be used again. */
  const ResumedNotice: string := "สามารถใช้บอทต่อได้"

  /** An announcement of `words` followed by a closing `notice`. */
  function NoticeAnnouncement(words: string, notice: string): (line: string)
    ensures IsClean(line) && StartsWith(line, AnnouncePrefix)
    ensures EndsWith(line, notice + "!")
  {
    var line := Announcement(words + " " + notice);
    assert line[|line| - |notice + "!"|..] == notice + "!";
    line
  }

  /** The announcement typed before a run's destroy list; it tells players
      the bot is paused. */
  function StartAnnouncement(kind: BulkKind): (line: string)
    ensures IsClean(line) && StartsWith(line, AnnouncePrefix)
    ensures EndsWith(line, PausedNotice + "!")
  {
    match kind
    case ManualClothes => NoticeAnnouncement("บอทกำลังลบชุด/เสื้อผ้า", PausedNotice)
    case ManualMaterials => NoticeAnnouncement("บอทกำลังลบวัสดุก่อสร้าง/เศษไม้", PausedNotice)
    case ScheduledClothes => NoticeAnnouncement("บอทกำลังลบชุด/เสื้อผ้าอัตโนมัติ", PausedNotice)
    case ScheduledMaterials => NoticeAnnouncement("บอทกำลังลบวัสดุก่อสร้าง", PausedNotice)
  }

  /** The announcement typed after a run's destroy list, telling players
      the bot is usable again. */
  function EndAnnouncement(kind: BulkKind): (line: string)
    ensures IsClean(line) && StartsWith(line, AnnouncePrefix)
    ensures EndsWith(line, ResumedNotice + "!")
  {
    match kind
    case ManualClothes => NoticeAnnouncement("บอทลบชุด/เสื้อผ้าสำเร็จ", ResumedNotice)
    case ManualMaterials => NoticeAnnouncement("บอทลบวัสดุก่อสร้าง/เศษไม้สำเร็จ", ResumedNotice)
    case ScheduledClothes => NoticeAnnouncement("บอทลบชุด/เสื้อผ้าอัตโนมัติสำเร็จ", ResumedNotice)
    case ScheduledMaterials => NoticeAnnouncement("บอทลบวัสดุก่อสร้าง", ResumedNotice)
  }

  /** No start announcement is an end announcement: the line before a run
      and the line after it always tell players different things. */
  lemma StartIsNeverEnd(k1: BulkKind, k2: BulkKind)
    ensures StartAnnouncement(k1) != EndAnnouncement(k2)
  {
    var start, end := StartAnnouncement(k1), EndAnnouncement(k2);
    assert start[|start| - 2] == (PausedNotice + "!")[|PausedNotice| - 1];
    assert end[|end| - 2] == (ResumedNotice + "!")[|ResumedNotice| - 1];
  }

  /** The destroy list a run types. */
  function BulkBatch(cfg: Config, kind: BulkKind): (batch: seq<string>)
    ensures (kind.ManualClothes? || kind.ScheduledClothes?) ==> batch == cfg.destroyCommandsType1
    ensures (kind.ManualMaterials? || kind.ScheduledMaterials?) ==> batch == cfg.destroyCommandsType2
  {
    if kind.ManualClothes? || kind.ScheduledClothes? then cfg.destroyCommandsType1 else cfg.destroyCommandsType2
  }

  /** A bulk run: the state while the lock is held, the lines typed while
      holding it, and the state once the guard is dropped. */
  datatype BulkRun = BulkRun(held: State, lines: seq<string>, after: State)

  /** The three sends of a bulk run: the start announcement, the batch and
      the end announcement. */
  function BulkLines(windowFound: bool, start: string, batch: seq<string>, end: string): (lines: seq<string>)
  {
    SendCommandsToGame(windowFound, [start]) + SendCommandsToGame(windowFound, batch)
      + SendCommandsToGame(windowFound, [end])
  }

  /** With the window found and clean lines, the three sends type exactly
      the start line, the batch in order and the end line; with no window,
      nothing. */
  lemma {:induction false} BulkLinesSpec(start: string, batch: seq<string>, end: string)
    requires IsClean(start) && AllClean(batch) && IsClean(end)
    ensures BulkLines(true, start, batch, end) == [start] + batch + [end]
    ensures BulkLines(false, start, batch, end) == []
  {
    SendCleanLine(true, start);
    SendCleanCommands(true, batch);
    SendCleanLine(true, end);
  }

  /** A bulk destroy run: take the destroy lock (`None`: it is held, and the
      run waits for it), type the start announcement, the destroy list and
      the end announcement, and drop the lock. */
  function BulkDestroy(s: State, cfg: Config, kind: BulkKind, windowFound: bool): (r: Option<BulkRun>)
    ensures r.None? <==> s.destroyLocked
    ensures r.Some? ==> r.value.held == s.(destroyLocked := true) && r.value.after == s
  {
    match AcquireDestroyLock(s)
    case None => None
    case Some(held) =>
      var lines := BulkLines(windowFound, StartAnnouncement(kind), BulkBatch(cfg, kind), EndAnnouncement(kind));
      Some(BulkRun(held, lines, ReleaseDestroyLock(held)))
  }

  /** A destroy command has no whitespace at either end. */
  lemma DestroyCommandIsClean(cmd: string)
    requires IsDestroyCommand(cmd)
    ensures IsClean(cmd)
  {
    assert cmd[0] == cmd[..|DestroyPrefix|][0] == DestroyPrefix[0];
  }

  /** A list of destroy commands is typed exactly as written. */
  lemma DestroyCommandsClean(cmds: seq<string>)
    requires forall i :: 0 <= i < |cmds| ==> IsDestroyCommand(cmds[i])
    ensures AllClean(cmds)
  {
    forall k | 0 <= k < |cmds|
      ensures IsClean(cmds[k])
    {
      DestroyCommandIsClean(cmds[k]);
    }
  }

  /** The shipped clothes list is typed exactly as written. */
  lemma DestroyListType1Clean()
    ensures AllClean(DestroyCommandsType1)
  {
    DestroyListType1WellFormed();
    DestroyCommandsClean(DestroyCommandsType1);
  }

  /** The shipped construction-materials list is typed exactly as written. */
  lemma DestroyListType2Clean()
    ensures AllClean(DestroyCommandsType2)
  {
    DestroyListType2WellFormed();
    DestroyCommandsClean(DestroyCommandsType2);
  }

  /** With the game window found, a bulk run over a clean destroy list types
      the start announcement, every destroy command in list order and the
      end announcement, all while the lock is held. */
  lemma {:induction false} BulkDestroyTrace(s: State, cfg: Config, kind: BulkKind)
    requires !s.destroyLocked
    requires AllClean(BulkBatch(cfg, kind))
    ensures BulkDestroy(s, cfg, kind, true).Some?
    ensures BulkDestroy(s, cfg, kind, true).value.lines
      == [StartAnnouncement(kind)] + BulkBatch(cfg, kind) + [EndAnnouncement(kind)]
  {
    BulkLinesSpec(StartAnnouncement(kind), BulkBatch(cfg, kind), EndAnnouncement(kind));
  }

  /** With no game window, a bulk run types nothing, yet still takes and
      drops the lock. */
  lemma BulkDestroyWithoutWindow(s: State, cfg: Config, kind: BulkKind)
    requires !s.destroyLocked
    ensures BulkDestroy(s, cfg, kind, false).Some?
    ensures BulkDestroy(s, cfg, kind, false).value.lines == []
  {
  }

  /** While a bulk run holds the lock, a purchase is turned away as busy
      and changes nothing. */
  lemma PurchaseDuringBulkIsBusy(s: State, cfg: Config, kind: BulkKind, windowFound: bool,
                                 user: string, roles: seq<nat>, trigger: string, channel: nat, now: int)
    requires BulkDestroy(s, cfg, kind, windowFound).Some?
    ensures var held := BulkDestroy(s, cfg, kind, windowFound).value.held;
      ShopInteraction(held, cfg, user, roles, trigger, channel, now) == (held, Busy)
  {
  }

  // ---------------------------------------------------------------------
  // Component interactions
  // ---------------------------------------------------------------------

  /** What a component interaction answers. */
  datatype Reply =
    | Suspended
    | AwaitingLock
    | Destroyed(lines: seq<string>)
    | Shop(outcome: Outcome)

  /** `interaction_create`: while the shop is suspended every button is
      refused first; the two destroy buttons run a manual bulk destroy;
      every other button is a purchase attempt. */
  function Interaction(s: State, cfg: Config, user: string, roles: seq<nat>, customId: string, channel: nat, now: int, windowFound: bool): (res: (State, Reply))
    ensures !s.active ==> res == (s, Suspended)
    ensures res.0.active == s.active
  {
    if !IsBotActive(s) then (s, Suspended)
    else if customId == DestroyType1Id || customId == DestroyType2Id then
      var kind := if customId == DestroyType1Id then ManualClothes else ManualMaterials;
      match BulkDestroy(s, cfg, kind, windowFound)
      case None => (s, AwaitingLock)
      case Some(run) => (run.after, Destroyed(run.lines))
    else
      var (s', o) := ShopInteraction(s, cfg, user, roles, customId, channel, now);
      (s', Shop(o))
  }

  /** A destroy button never buys anything: it leaves the ledger, the queue
      and the cooldowns alone, whatever the catalogue says. */
  lemma DestroyButtonsNeverPurchase(s: State, cfg: Config, user: string, roles: seq<nat>, customId: string, channel: nat, now: int, windowFound: bool)
    requires customId == DestroyType1Id || customId == DestroyType2Id
    ensures Interaction(s, cfg, user, roles, customId, channel, now, windowFound).0 == s
    ensures !Interaction(s, cfg, user, roles, customId, channel, now, windowFound).1.Shop?
  {
  }

  /** Any other button behaves as the purchase transaction, once the shop
      is active. */
  lemma OtherButtonsPurchase(s: State, cfg: Config, user: string, roles: seq<nat>, customId: string, channel: nat, now: int, windowFound: bool)
    requires s.active && customId != DestroyType1Id && customId != DestroyType2Id
    ensures var (s', r) := Interaction(s, cfg, user, roles, customId, channel, now, windowFound);
      r.Shop? && (s', r.outcome) == ShopInteraction(s, cfg, user, roles, customId, channel, now)
  {
  }
}
