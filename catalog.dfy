/**
  The bot's static product table `PRODUCT_CATALOG` and the set
  `MAC_REQUIRED_PRODUCTS` of products sold only with a device MAC address.
  Prices are integer cents (65.00 is 6500). Names keep the exact code
  points of the source, including the invisible U+200B and U+FE0F that
  follow some of the emoji.
*/
module Catalog {

  datatype Product = Product(name: string, price: nat)

  const ActivationCategory: string := "ATIVAR APP"
  const CreditsCategory: string := "COMPRAR CR\U{C9}DITOS"

  // "ATIVAR APP": app activations, each sold for one device.
  const Assist := Product("\U{2795}\U{200B} ASSIST+ R$ 65", 6500)
  const NinjaPlayer := Product("\U{1F4F1} NINJA PLAYER R$65", 6500)
  const MegaIptv := Product("\U{1F4FA} MEGA IPTV R$ 75", 7500)
  const SmartOne := Product("\U{1F9E0} SMART ONE R$60", 7000)
  const IboProPlayer := Product("\U{1F3AE} IBO PRO PLAYER R$50", 5000)
  const IboTvOficial := Product("\U{1F4E1} IBO TV OFICIAL R$50", 5000)
  const Duplecast := Product("\U{1F9E9} DUPLECAST R$60", 6000)
  const BayTv := Product("\U{1F310} BAY TV R$60", 6000)
  const QuickPlayer := Product("\U{1F7E3}\U{200B} QUICK PLAYER R$65", 6500)
  const TiviPlayer := Product("\U{25B6}\U{FE0F}\U{200B} TIVI PLAYER R$65", 6500)
  const SuperPlay := Product("\U{1F525} SUPER PLAY R$50", 5000)
  const Clouddy := Product("\U{2601}\U{FE0F} CLOUDDY R$65", 6500)

  // Credit packs, listed under CreditsCategory.
  const XServerPlay := Product("\U{1F3AF} X SERVER PLAY (13,50und)", 1350)
  const FastPlayer := Product("\U{26A1} FAST PLAYER (13,50und)", 1350)
  const GoldPlay := Product("\U{1F451} GOLD PLAY (13,50und)", 1350)
  const EiTv := Product("\U{1F4FA} EI TV (13,50und)", 1350)
  const ZTech := Product("\U{1F6F0}\U{FE0F} Z TECH (13,50und)", 1350)
  const GenialPlay := Product("\U{1F9E0} GENIAL PLAY (13,50und)", 1350)
  const UpperPlay := Product("\U{1F680} UPPER PLAY (15,00und)", 15000)

  const ActivationProducts: seq<Product> := [
    Assist,
    NinjaPlayer,
    MegaIptv,
    SmartOne,
    IboProPlayer,
    IboTvOficial,
    Duplecast,
    BayTv,
    QuickPlayer,
    TiviPlayer,
    SuperPlay,
    Clouddy
  ]

  const CreditProducts: seq<Product> := [
    XServerPlay,
    FastPlayer,
    GoldPlay,
    EiTv,
    ZTech,
    GenialPlay,
    UpperPlay
  ]

  /** The dictionary in insertion order, the order in which its keys are written. */
  const Entries: seq<(string, seq<Product>)> := [
    (ActivationCategory, ActivationProducts),
    (CreditsCategory, CreditProducts)
  ]

  /** Written out name by name, as in the source, independently of the table above. */
  const MacRequired: set<string> := {
    "\U{2795}\U{200B} ASSIST+ R$ 65",
    "\U{1F4F1} NINJA PLAYER R$65",
    "\U{1F4FA} MEGA IPTV R$ 75",
    "\U{1F9E0} SMART ONE R$60",
    "\U{1F3AE} IBO PRO PLAYER R$50",
    "\U{1F4E1} IBO TV OFICIAL R$50",
    "\U{1F9E9} DUPLECAST R$60",
    "\U{1F310} BAY TV R$60",
    "\U{1F7E3}\U{200B} QUICK PLAYER R$65",
    "\U{25B6}\U{FE0F}\U{200B} TIVI PLAYER R$65",
    "\U{1F525} SUPER PLAY R$50",
    "\U{2601}\U{FE0F} CLOUDDY R$65"
  }

  /** The category keys in dictionary order (what `for cat in PRODUCT_CATALOG` visits). */
  function Categories(): (cats: seq<string>)
    ensures |cats| == |Entries|
    ensures forall k :: 0 <= k < |cats| ==> cats[k] == Entries[k].0
  {
    [ActivationCategory, CreditsCategory]
  }

  /** `dict.get(key, [])` over a key/value list whose first matching key wins. */
  function LookupIn(entries: seq<(string, seq<Product>)>, key: string): (ps: seq<Product>)
    ensures (forall k :: 0 <= k < |entries| ==> entries[k].0 != key) ==> ps == []
    ensures forall k :: 0 <= k < |entries| && entries[k].0 == key && (forall j :: 0 <= j < k ==> entries[j].0 != key) ==> ps == entries[k].1
  {
    if entries == [] then []
    else if entries[0].0 == key then entries[0].1
    else LookupIn(entries[1..], key)
  }

  /** `PRODUCT_CATALOG.get(key, [])`. */
  function Lookup(key: string): seq<Product> {
    LookupIn(Entries, key)
  }

  predicate InCatalog(p: Product) {
    p in ActivationProducts || p in CreditProducts
  }

  /** The keys of the catalog are distinct, as the keys of a dictionary are. */
  lemma CategoriesDistinct()
    ensures forall i, j :: 0 <= i < j < |Entries| ==> Entries[i].0 != Entries[j].0
  {
    assert ActivationCategory[0] != CreditsCategory[0];
  }

  /** Looking up each key gives its own product list; any other key gives the empty list. */
  lemma LookupCatalog(key: string)
    ensures key == ActivationCategory ==> Lookup(key) == ActivationProducts
    ensures key == CreditsCategory ==> Lookup(key) == CreditProducts
    ensures key != ActivationCategory && key != CreditsCategory ==> Lookup(key) == []
  {
    CategoriesDistinct();
    if key == CreditsCategory {
      assert Entries[0].0 != key && Entries[1].0 == key;
    }
  }

  /** A product is in the catalog exactly when the lookup of one of the keys lists it. */
  lemma InCatalogByLookup(p: Product)
    ensures InCatalog(p) <==> exists k :: 0 <= k < |Categories()| && p in Lookup(Categories()[k])
  {
    LookupCatalog(ActivationCategory);
    LookupCatalog(CreditsCategory);
    if p in ActivationProducts {
      assert p in Lookup(Categories()[0]);
    } else if p in CreditProducts {
      assert p in Lookup(Categories()[1]);
    }
  }

  function Names(ps: seq<Product>): set<string> {
    set p | p in ps :: p.name
  }

  /**
    Every product that needs a MAC address is an app activation: the
    MAC-required names are exactly the names listed under "ATIVAR APP",
    and no credit product needs one.
  */
  lemma MacRequiredAreActivations()
    ensures MacRequired == Names(Lookup(ActivationCategory))
    ensures forall p :: p in Lookup(CreditsCategory) ==> p.name !in MacRequired
  {
    LookupCatalog(ActivationCategory);
    LookupCatalog(CreditsCategory);
    MacNamesAreActivationNames();
    ActivationNamesNeedMac();
    CreditNamesNeedNoMac();
  }

  lemma MacNamesAreActivationNames()
    ensures MacRequired <= Names(ActivationProducts)
  {
  }

  lemma ActivationNamesNeedMac()
    ensures Names(ActivationProducts) <= MacRequired
  {
  }

  lemma CreditNamesNeedNoMac()
    ensures forall p :: p in CreditProducts ==> p.name !in MacRequired
  {
  }

  /** Every price is positive. */
  lemma PricesPositive()
    ensures forall p :: InCatalog(p) ==> p.price > 0
  {
  }

  // No product name holds a colon, the separator of the callback data:
  // each lemma below states it of one product, and NamesHaveNoColon of all.
  lemma AssistColonFree() ensures ':' !in Assist.name {}
  lemma NinjaPlayerColonFree() ensures ':' !in NinjaPlayer.name {}
  lemma MegaIptvColonFree() ensures ':' !in MegaIptv.name {}
  lemma SmartOneColonFree() ensures ':' !in SmartOne.name {}
  lemma IboProPlayerColonFree() ensures ':' !in IboProPlayer.name {}
  lemma IboTvOficialColonFree() ensures ':' !in IboTvOficial.name {}
  lemma DuplecastColonFree() ensures ':' !in Duplecast.name {}
  lemma BayTvColonFree() ensures ':' !in BayTv.name {}
  lemma QuickPlayerColonFree() ensures ':' !in QuickPlayer.name {}
  lemma TiviPlayerColonFree() ensures ':' !in TiviPlayer.name {}
  lemma SuperPlayColonFree() ensures ':' !in SuperPlay.name {}
  lemma ClouddyColonFree() ensures ':' !in Clouddy.name {}
  lemma XServerPlayColonFree() ensures ':' !in XServerPlay.name {}
  lemma FastPlayerColonFree() ensures ':' !in FastPlayer.name {}
  lemma GoldPlayColonFree() ensures ':' !in GoldPlay.name {}
  lemma EiTvColonFree() ensures ':' !in EiTv.name {}
  lemma ZTechColonFree() ensures ':' !in ZTech.name {}
  lemma GenialPlayColonFree() ensures ':' !in GenialPlay.name {}
  lemma UpperPlayColonFree() ensures ':' !in UpperPlay.name {}

  lemma NamesHaveNoColon()
    ensures forall p :: InCatalog(p) ==> ':' !in p.name
  {
    AssistColonFree();
    NinjaPlayerColonFree();
    MegaIptvColonFree();
    SmartOneColonFree();
    IboProPlayerColonFree();
    IboTvOficialColonFree();
    DuplecastColonFree();
    BayTvColonFree();
    QuickPlayerColonFree();
    TiviPlayerColonFree();
    SuperPlayColonFree();
    ClouddyColonFree();
    XServerPlayColonFree();
    FastPlayerColonFree();
    GoldPlayColonFree();
    EiTvColonFree();
    ZTechColonFree();
    GenialPlayColonFree();
    UpperPlayColonFree();
  }
}
