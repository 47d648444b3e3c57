/** The bot's configuration: the shop catalogue read from JSON at start-up
    and the tables fixed in code (VIP roles, the cooldown-exempt channel, the
    two bulk-destroy command lists and the "special" commands). */
module Config {
  import opened Common

  /** One purchase button. `trigger` is the button's custom id; `commands`
      are templates that may contain the `{steam_id}` placeholder. */
  datatype ShopButton = ShopButton(text: string, trigger: string, commands: seq<string>, quantity: nat)

  datatype ShopItem = ShopItem(name: string, price: nat, image: Option<string>, buttons: seq<ShopButton>)

  /** One shop: the channel its items are posted in, and the items in order. */
  datatype ShopConfig = ShopConfig(channel: string, items: seq<ShopItem>)

  /** A VIP tier. The source stores the discount as an `f32` fraction; here
      it is the whole percentage (0.30 becomes 30). */
  datatype VipRole = VipRole(tier: nat, discountPercent: nat, name: string)

  datatype Config = Config(
    shopData: seq<ShopConfig>,
    vipRoles: map<nat, VipRole>,
    exemptChannelId: nat,
    destroyCommandsType1: seq<string>,
    destroyCommandsType2: seq<string>,
    specialCommands: seq<string>)

  /** The quantity a button carries when its JSON object omits the field. */
  const DefaultQuantity: nat := 1

  /** Decoding of the optional `quantity` field: an absent field reads as the default. */
  function ButtonQuantity(field: Option<nat>): (q: nat)
    ensures field.None? ==> q == DefaultQuantity
    ensures field.Some? ==> q == field.value
  {
    match field
    case None => DefaultQuantity
    case Some(n) => n
  }

  /** A button as written in the JSON catalogue, where `quantity` may be absent. */
  datatype ButtonJson = ButtonJson(text: string, trigger: string, commands: seq<string>, quantity: Option<nat>)

  /** Decoding one button: every field is taken over as written, and an
      absent quantity reads as the default. */
  function DecodeButton(j: ButtonJson): (b: ShopButton)
    ensures b.text == j.text && b.trigger == j.trigger && b.commands == j.commands
    ensures j.quantity.None? ==> b.quantity == DefaultQuantity
    ensures j.quantity.Some? ==> b.quantity == j.quantity.value
  {
    ShopButton(j.text, j.trigger, j.commands, ButtonQuantity(j.quantity))
  }

  const SilverRoleId: nat := 1375091477448888412
  const GoldRoleId: nat := 1345511219263569984
  const PlatinumRoleId: nat := 1375090778254217317
  const DiamondRoleId: nat := 1381346983649874030

  /** Discord role id to VIP tier. */
  const VipRoles: map<nat, VipRole> := map[
    SilverRoleId := VipRole(1, 0, "Silver"),
    GoldRoleId := VipRole(2, 30, "Gold"),
    PlatinumRoleId := VipRole(3, 50, "Platinum"),
    DiamondRoleId := VipRole(4, 60, "Diamond")]

  /** Purchases made from this channel are not subject to the cooldown. */
  const ExemptChannelId: nat := 1381383699320537209

  /** Every bulk-destroy command starts with this game command. */
  const DestroyPrefix: string := "#DestroyAllItemsWithinRadius"

  /** The game command that destroys every `target` item within `radius`. */
  function DestroyItems(target: string, radius: string): (cmd: string)
    requires |radius| > 0
    ensures |cmd| == |DestroyPrefix| + |target| + |radius| + 2
  {
    DestroyPrefix + " " + target + " " + radius
  }

  /** A destroy command starts with the game command and ends in the last
      character of its radius. */
  lemma DestroyItemsShape(target: string, radius: string)
    requires |radius| > 0
    ensures StartsWith(DestroyItems(target, radius), DestroyPrefix)
    ensures DestroyItems(target, radius)[|DestroyItems(target, radius)| - 1] == radius[|radius| - 1]
  {
    var cmd := DestroyItems(target, radius);
    assert cmd[..|DestroyPrefix|] == DestroyPrefix;
  }

  /** Clothes and outfits, in the order the program types them. */
  const DestroyCommandsType1: seq<string> :=
    ClothesA + ClothesB + ClothesC + ClothesD + ClothesE + ClothesF + ClothesG + ClothesH

  // Both lists are written in parts of five entries, concatenated in the
  // program's order, so that each part's proof below stays small.

  const ClothesA: seq<string> := [
    DestroyItems("Rag_Stripes", "9999999999999999999"),
    DestroyItems("Rags", "99999999999999999"),
    DestroyItems("Peniswarmer_01", "99999999999999999"),
    DestroyItems("Wool_Gloves_01_01", "99999999999999999"),
    DestroyItems("Inmate_Hoodie_01", "99999999999999999")
  ]

  const ClothesB: seq<string> := [
    DestroyItems("Inmate_shirt_01", "99999999999999999"),
    DestroyItems("Scum_Shirt_Event_Black", "99999999999999"),
    DestroyItems("Scum_Shirt_Event_White", "999999999999"),
    DestroyItems("Scum_Shirt_Event_Orange", "999999999999999"),
    DestroyItems("Inmate_pants", "99999999999999999")
  ]

  const ClothesC: seq<string> := [
    DestroyItems("Underpants_01", "99999999999999999"),
    DestroyItems("Scum_Shirt_Supporter_Pack_Black_01", "99999999999999999"),
    DestroyItems("F_Undershirt_Bra_01", "999999999999999999"),
    DestroyItems("Scum_Shirt_Event_Black", "9999999999999999999999"),
    DestroyItems("Boxer_Briefs_01", "9999999999999999999999")
  ]

  const ClothesD: seq<string> := [
    DestroyItems("HighTop_Shoes", "9999999999999999999999"),
    DestroyItems("Sock_01", "9999999999999999999999"),
    DestroyItems("Danny_Trejo_Vest", "9999999999999999999999"),
    DestroyItems("Danny_Trejo_Pants", "9999999999999999999999"),
    DestroyItems("1H_DannyMachete", "9999999999999999999999")
  ]

  const ClothesE: seq<string> := [
    DestroyItems("Danny_Trejo_Glove_01", "9999999999999999999999"),
    DestroyItems("Danny_Trejo_Boots_01", "9999999999999999999999"),
    DestroyItems("Military_Beanie_01", "9999999999999999999999"),
    DestroyItems("Military_Beanie_02", "9999999999999999999999"),
    DestroyItems("Parachute", "9999999999999999999999")
  ]

  const ClothesF: seq<string> := [
    DestroyItems("Military_Mask_02", "9999999999999999999999"),
    DestroyItems("F_Bra_Supporter_01", "9999999999999999999999"),
    DestroyItems("Undershirt_01", "9999999999999999999999"),
    DestroyItems("LuisMoncada_Jacket", "999999999999999999999"),
    DestroyItems("LuisMoncada_Pants", "999999999999999999999")
  ]

  const ClothesG: seq<string> := [
    DestroyItems("LuisMoncada_Boots", "999999999999999999999"),
    DestroyItems("2H_La_Hacha_Axe", "999999999999999999999"),
    DestroyItems("Raymond_Cruz_Boots", "999999999999999999999"),
    DestroyItems("Raymond_Cruz_Hat", "999999999999999999999"),
    DestroyItems("Raymond_Cruz_Pants", "999999999999999999999")
  ]

  const ClothesH: seq<string> := [
    DestroyItems("Raymond_Cruz_Shirt", "999999999999999999999"),
    DestroyItems("1H_RaymondCruz_Knife", "999999999999999999999"),
    DestroyItems("Undershirt_01", "999999999999999999999")
  ]

  /** Construction materials and scrap, in the order the program types them. */
  const DestroyCommandsType2: seq<string> :=
    MaterialsA + MaterialsB + MaterialsC + MaterialsD + MaterialsE + MaterialsF + MaterialsG + MaterialsH + MaterialsI

  const MaterialsA: seq<string> := [
    DestroyItems("Rope1", "99999999999999999999"),
    DestroyItems("Paper", "999999999999999999999"),
    DestroyItems("PETBottle04", "999999999999999999999999"),
    DestroyItems("Sock_01", "9999999999999999999999"),
    DestroyItems("Wooden_Stick", "9999999999999999999999")
  ]

  const MaterialsB: seq<string> := [
    DestroyItems("Bundle_Wooden_Plank", "9999999999999999999999"),
    DestroyItems("Wooden_Log_02", "9999999999999999999999"),
    DestroyItems("Wooden_Log_01", "9999999999999999999999"),
    DestroyItems("Long_wooden_stick", "9999999999999999999999"),
    DestroyItems("Paper", "9999999999999999999999")
  ]

  const MaterialsC: seq<string> := [
    DestroyItems("Wooden_Plank", "9999999999999999999999"),
    DestroyItems("Military_Beanie_01", "9999999999999999999999"),
    DestroyItems("Military_Beanie_02", "9999999999999999999999"),
    DestroyItems("Parachute", "9999999999999999999999"),
    DestroyItems("Military_Mask_02", "9999999999999999999999")
  ]

  const MaterialsD: seq<string> := [
    DestroyItems("F_Bra_Supporter_01", "9999999999999999999999"),
    DestroyItems("Undershirt_01", "9999999999999999999999"),
    DestroyItems("Wooden_Log_Small_01", "9999999999999999999999"),
    DestroyItems("Wooden_Log_Small_02", "9999999999999999999999"),
    DestroyItems("Wooden_Log_Small_03", "9999999999999999999999")
  ]

  const MaterialsE: seq<string> := [
    DestroyItems("Metal_Scrap_02", "9999999999999999999999"),
    DestroyItems("Metal_Scrap_03", "9999999999999999999999"),
    DestroyItems("Metal_Scrap_01", "9999999999999999999999"),
    DestroyItems("Metal_Scrap_04", "9999999999999999999999"),
    DestroyItems("Metal_Scrap_05", "9999999999999999999999")
  ]

  const MaterialsF: seq<string> := [
    DestroyItems("PETBottle01", "9999999999999999999999"),
    DestroyItems("Brick", "9999999999999999999999"),
    DestroyItems("2H_Axe", "9999999999999999999999"),
    DestroyItems("2H_La_Hacha_Axe", "999999999999999999999"),
    DestroyItems("1H_RaymondCruz_Knife", "999999999999999999999")
  ]

  const MaterialsG: seq<string> := [
    DestroyItems("Inmate_Hoodie_01", "999999999999999999999"),
    DestroyItems("Wool_Gloves_01_01", "999999999999999999999"),
    DestroyItems("Undershirt_01", "999999999999999999999"),
    DestroyItems("Bolts_Package_Box", "999999999999999999999"),
    DestroyItems("Rope", "999999999999999999999")
  ]

  const MaterialsH: seq<string> := [
    DestroyItems("Nails_Package_Box", "999999999999999999999"),
    DestroyItems("CementBag", "999999999999999999999"),
    DestroyItems("GravelBag", "999999999999999999999"),
    DestroyItems("SandBag", "999999999999999999999"),
    DestroyItems("Barbed_Wire", "999999999999999999999")
  ]

  const MaterialsI: seq<string> := [
    DestroyItems("Sledgehammer", "999999999999999999999"),
    DestroyItems("Nails", "999999999999999999999"),
    DestroyItems("Bolts", "999999999999999999999"),
    DestroyItems("EmptyBag", "999999999999999999999")
  ]

  /** Commands that change global state rather than act at a player's location. */
  const SpecialCommands: seq<string> := ["ChangeCurrencyBalance", "ChangeFamePoints"]

  /** The VIP table, the cooldown-exempt channel, the two destroy lists and
      the special commands are the ones the program is built with. */
  predicate CarriesShippedTables(c: Config)
  {
    && c.vipRoles == VipRoles && c.exemptChannelId == ExemptChannelId
    && c.destroyCommandsType1 == DestroyCommandsType1 && c.destroyCommandsType2 == DestroyCommandsType2
    && c.specialCommands == SpecialCommands
  }

  /** `Config::load` once the catalogue has been read and parsed: the
      catalogue from the file, every other table the shipped one. */
  function Load(shopData: seq<ShopConfig>): (c: Config)
    ensures c.shopData == shopData && CarriesShippedTables(c)
  {
    Config(shopData, VipRoles, ExemptChannelId, DestroyCommandsType1, DestroyCommandsType2, SpecialCommands)
  }

  /** The VIP table has four roles whose tiers are exactly 1, 2, 3 and 4, one each. */
  lemma VipTableShape()
    ensures |VipRoles| == 4
    ensures forall r :: r in VipRoles ==> 1 <= VipRoles[r].tier <= 4
    ensures forall r1, r2 :: r1 in VipRoles && r2 in VipRoles && r1 != r2 ==> VipRoles[r1].tier != VipRoles[r2].tier
  {
    assert VipRoles.Keys == {SilverRoleId, GoldRoleId, PlatinumRoleId, DiamondRoleId};
  }

  /** A higher tier never carries a smaller discount, and every discount
      leaves a positive price multiplier (it is below 100%). */
  lemma VipDiscountsOrdered()
    ensures forall r1, r2 :: r1 in VipRoles && r2 in VipRoles && VipRoles[r1].tier <= VipRoles[r2].tier ==>
      VipRoles[r1].discountPercent <= VipRoles[r2].discountPercent
    ensures forall r :: r in VipRoles ==> VipRoles[r].discountPercent < 100
  {
    assert VipRoles.Keys == {SilverRoleId, GoldRoleId, PlatinumRoleId, DiamondRoleId};
  }

  /** The discounts, as whole percents, are 0, 30, 50 and 60 for tiers 1 to
      4: the fractions 0.0, 0.30, 0.50 and 0.60 times 100, truncated. */
  lemma VipDiscountPercents()
    ensures forall r :: r in VipRoles && VipRoles[r].tier == 1 ==> VipRoles[r].discountPercent == 0
    ensures forall r :: r in VipRoles && VipRoles[r].tier == 2 ==> VipRoles[r].discountPercent == 30
    ensures forall r :: r in VipRoles && VipRoles[r].tier == 3 ==> VipRoles[r].discountPercent == 50
    ensures forall r :: r in VipRoles && VipRoles[r].tier == 4 ==> VipRoles[r].discountPercent == 60
  {
    assert VipRoles.Keys == {SilverRoleId, GoldRoleId, PlatinumRoleId, DiamondRoleId};
  }

  /** `cmd` is one bulk-destroy command: it starts with the destroy command
      and ends in a digit of its radius. */
  predicate IsDestroyCommand(cmd: string)
  {
    StartsWith(cmd, DestroyPrefix) && cmd[|cmd| - 1] == '9'
  }

  /** Every entry of `cmds` is a bulk-destroy command. */
  predicate AllDestroyCommands(cmds: seq<string>)
  {
    forall i :: 0 <= i < |cmds| ==> IsDestroyCommand(cmds[i])
  }

  /** Two lists of destroy commands concatenate to one. */
  lemma AllDestroyCommandsConcat(a: seq<string>, b: seq<string>)
    requires AllDestroyCommands(a) && AllDestroyCommands(b)
    ensures AllDestroyCommands(a + b)
  {
    forall i | 0 <= i < |a + b|
      ensures IsDestroyCommand((a + b)[i])
    {
      if i >= |a| {
        assert (a + b)[i] == b[i - |a|];
      }
    }
  }

  /** Every radius in the shipped lists ends in '9', so each entry built by
      `DestroyItems` is a destroy command. */
  lemma DestroyItemsIsDestroyCommand(target: string, radius: string)
    requires |radius| > 0 && radius[|radius| - 1] == '9'
    ensures IsDestroyCommand(DestroyItems(target, radius))
  {
    DestroyItemsShape(target, radius);
  }

  /** Every command `DestroyItems` builds with a radius ending in '9' is a
      destroy command. */
  lemma DestroyItemsAreDestroyCommands()
    ensures forall target, radius :: |radius| > 0 && radius[|radius| - 1] == '9' ==>
      IsDestroyCommand(DestroyItems(target, radius))
  {
    forall target, radius | |radius| > 0 && radius[|radius| - 1] == '9'
      ensures IsDestroyCommand(DestroyItems(target, radius))
    {
      DestroyItemsIsDestroyCommand(target, radius);
    }
  }

  // Each part of the two shipped lists holds destroy commands only; one
  // lemma per part keeps each proof small.

  lemma ClothesAWellFormed()
    ensures AllDestroyCommands(ClothesA)
  {
    DestroyItemsAreDestroyCommands();
  }

  lemma ClothesBWellFormed()
    ensures AllDestroyCommands(ClothesB)
  {
    DestroyItemsAreDestroyCommands();
  }

  lemma ClothesCWellFormed()
    ensures AllDestroyCommands(ClothesC)
  {
    DestroyItemsAreDestroyCommands();
  }

  lemma ClothesDWellFormed()
    ensures AllDestroyCommands(ClothesD)
  {
    DestroyItemsAreDestroyCommands();
  }

  lemma ClothesEWellFormed()
    ensures AllDestroyCommands(ClothesE)
  {
    DestroyItemsAreDestroyCommands();
  }

  lemma ClothesFWellFormed()
    ensures AllDestroyCommands(ClothesF)
  {
    DestroyItemsAreDestroyCommands();
  }

  lemma ClothesGWellFormed()
    ensures AllDestroyCommands(ClothesG)
  {
    DestroyItemsAreDestroyCommands();
  }

  lemma ClothesHWellFormed()
    ensures AllDestroyCommands(ClothesH)
  {
    DestroyItemsAreDestroyCommands();
  }

  lemma MaterialsAWellFormed()
    ensures AllDestroyCommands(MaterialsA)
  {
    DestroyItemsAreDestroyCommands();
  }

  lemma MaterialsBWellFormed()
    ensures AllDestroyCommands(MaterialsB)
  {
    DestroyItemsAreDestroyCommands();
  }

  lemma MaterialsCWellFormed()
    ensures AllDestroyCommands(MaterialsC)
  {
    DestroyItemsAreDestroyCommands();
  }

  lemma MaterialsDWellFormed()
    ensures AllDestroyCommands(MaterialsD)
  {
    DestroyItemsAreDestroyCommands();
  }

  lemma MaterialsEWellFormed()
    ensures AllDestroyCommands(MaterialsE)
  {
    DestroyItemsAreDestroyCommands();
  }

  lemma MaterialsFWellFormed()
    ensures AllDestroyCommands(MaterialsF)
  {
    DestroyItemsAreDestroyCommands();
  }

  lemma MaterialsGWellFormed()
    ensures AllDestroyCommands(MaterialsG)
  {
    DestroyItemsAreDestroyCommands();
  }

  lemma MaterialsHWellFormed()
    ensures AllDestroyCommands(MaterialsH)
  {
    DestroyItemsAreDestroyCommands();
  }

  lemma MaterialsIWellFormed()
    ensures AllDestroyCommands(MaterialsI)
  {
    DestroyItemsAreDestroyCommands();
  }

  /** The clothes list is non-empty and every entry is a destroy command. */
  lemma DestroyListType1WellFormed()
    ensures |DestroyCommandsType1| > 0
    ensures forall i :: 0 <= i < |DestroyCommandsType1| ==> IsDestroyCommand(DestroyCommandsType1[i])
  {
    ClothesAWellFormed(); ClothesBWellFormed(); ClothesCWellFormed(); ClothesDWellFormed(); ClothesEWellFormed();
    ClothesFWellFormed(); ClothesGWellFormed(); ClothesHWellFormed();
    AllDestroyCommandsConcat(ClothesA, ClothesB);
    AllDestroyCommandsConcat(ClothesA + ClothesB, ClothesC);
    AllDestroyCommandsConcat(ClothesA + ClothesB + ClothesC, ClothesD);
    AllDestroyCommandsConcat(ClothesA + ClothesB + ClothesC + ClothesD, ClothesE);
    AllDestroyCommandsConcat(ClothesA + ClothesB + ClothesC + ClothesD + ClothesE, ClothesF);
    AllDestroyCommandsConcat(ClothesA + ClothesB + ClothesC + ClothesD + ClothesE + ClothesF, ClothesG);
    AllDestroyCommandsConcat(ClothesA + ClothesB + ClothesC + ClothesD + ClothesE + ClothesF + ClothesG, ClothesH);
  }

  /** The construction-materials list is non-empty and every entry is a destroy command. */
  lemma DestroyListType2WellFormed()
    ensures |DestroyCommandsType2| > 0
    ensures forall i :: 0 <= i < |DestroyCommandsType2| ==> IsDestroyCommand(DestroyCommandsType2[i])
  {
    MaterialsAWellFormed(); MaterialsBWellFormed(); MaterialsCWellFormed(); MaterialsDWellFormed(); MaterialsEWellFormed();
    MaterialsFWellFormed(); MaterialsGWellFormed(); MaterialsHWellFormed(); MaterialsIWellFormed();
    AllDestroyCommandsConcat(MaterialsA, MaterialsB);
    AllDestroyCommandsConcat(MaterialsA + MaterialsB, MaterialsC);
    AllDestroyCommandsConcat(MaterialsA + MaterialsB + MaterialsC, MaterialsD);
    AllDestroyCommandsConcat(MaterialsA + MaterialsB + MaterialsC + MaterialsD, MaterialsE);
    AllDestroyCommandsConcat(MaterialsA + MaterialsB + MaterialsC + MaterialsD + MaterialsE, MaterialsF);
    AllDestroyCommandsConcat(MaterialsA + MaterialsB + MaterialsC + MaterialsD + MaterialsE + MaterialsF, MaterialsG);
    AllDestroyCommandsConcat(MaterialsA + MaterialsB + MaterialsC + MaterialsD + MaterialsE + MaterialsF + MaterialsG, MaterialsH);
    AllDestroyCommandsConcat(MaterialsA + MaterialsB + MaterialsC + MaterialsD + MaterialsE + MaterialsF + MaterialsG + MaterialsH, MaterialsI);
  }

}
