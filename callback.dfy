/**
  Inline-keyboard callback data. The menu and category keyboards write a
  choice into a button's data as `categoria:<category>` or
  `produto:<name>:<price>`, and the button handler reads it back by
  splitting at the first one or two colons.
*/
module Callback {

  import opened Wrappers
  import opened Strings
  import opened Catalog

  datatype Button = Button(text: string, data: string)

  const CategoryPrefix: string := "categoria:"
  const ProductPrefix: string := "produto:"

  /** The data of a category button: `f"categoria:{cat}"`. */
  function CategoryData(category: string): string {
    CategoryPrefix + category
  }

  /** The data of a product button: `f"produto:{name}:{price}"`. */
  function ProductData(name: string, priceText: string): string {
    ProductPrefix + name + ":" + priceText
  }

  /** A product's button, labelled with its name and carrying its `price` field. */
  function ProductButton(p: Product): Button {
    Button(p.name, ProductData(p.name, PriceText(p.price)))
  }

  const BackButton: Button := Button("\U{2B05}\U{FE0F} Voltar", "voltar")

  const CreditsButton: Button := Button("\U{1F4B3} Comprar Cr\U{E9}ditos", "categoria:COMPRAR CR\U{C9}DITOS")
  const CartButton: Button := Button("\U{1F6D2} Ver Carrinho", "ver_carrinho")

  function CategoryButton(category: string): Button {
    Button("\U{1F4E6} " + category, CategoryData(category))
  }

  /** The keyboard `produtos` sends: one row per category, then credits and cart. */
  function MenuKeyboard(): seq<seq<Button>> {
    var cats := Categories();
    seq(|cats|, k requires 0 <= k < |cats| => [CategoryButton(cats[k])]) + [[CreditsButton, CartButton]]
  }

  /** The keyboard shown for a category: one row per product it lists, then "Voltar". */
  function CategoryKeyboard(category: string): seq<seq<Button>> {
    var ps := Lookup(category);
    seq(|ps|, k requires 0 <= k < |ps| => [ProductButton(ps[k])]) + [[BackButton]]
  }

  /** What the button handler makes of the data of a pressed button. */
  datatype Action =
    | ShowCategory(category: string)
    | SelectProduct(name: string, priceText: string)
    | Unmatched(data: string)  // handled by branches this model does not cover

  /** `_, nome, preco = data.split(":", 2)` raises ValueError when there are not three parts. */
  datatype DecodeError = UnpackError(got: nat)

  /**
    The first two branches of `button_handler`: data starting `categoria:`
    names everything after the first colon; data starting `produto:` is
    cut at its first two colons into the tag, the name and the price text.
  */
  function Decode(data: string): Result<Action, DecodeError> {
    if StartsWith(data, CategoryPrefix) then
      assert data[|CategoryPrefix| - 1] == ':';
      SplitCuts(data, ':', 1);
      Ok(ShowCategory(Split(data, ':', 1)[1]))
    else if StartsWith(data, ProductPrefix) then
      var parts := Split(data, ':', 2);
      if |parts| == 3 then Ok(SelectProduct(parts[1], parts[2]))
      else Err(UnpackError(|parts|))
    else
      Ok(Unmatched(data))
  }

  /**
    What the handler makes of any data: data starting `categoria:` opens
    the category written after it; other data starting `produto:` either
    selects a product or fails to unpack with two parts (one colon only);
    any other data is left to the later branches, unchanged.
  */
  lemma DecodeCases(data: string)
    ensures Decode(data).Ok? && Decode(data).value.Unmatched? <==> !StartsWith(data, CategoryPrefix) && !StartsWith(data, ProductPrefix)
    ensures Decode(data).Ok? && Decode(data).value.Unmatched? ==> Decode(data).value.data == data
    ensures Decode(data).Ok? && Decode(data).value.ShowCategory? <==> StartsWith(data, CategoryPrefix)
    ensures Decode(data).Ok? && Decode(data).value.ShowCategory? ==> data == CategoryPrefix + Decode(data).value.category
    ensures Decode(data).Err? ==> StartsWith(data, ProductPrefix) && Decode(data).error == UnpackError(2)
  {
    if StartsWith(data, CategoryPrefix) {
      CategoryRest(data);
    } else if StartsWith(data, ProductPrefix) {
      assert data[|ProductPrefix| - 1] == ':';
      SplitCuts(data, ':', 2);
    }
  }

  /** The category named by category data is everything after the prefix. */
  lemma CategoryRest(data: string)
    requires StartsWith(data, CategoryPrefix)
    ensures |Split(data, ':', 1)| == 2 && data == CategoryPrefix + Split(data, ':', 1)[1]
  {
    var rest := data[|CategoryPrefix|..];
    assert data == "categoria" + [':'] + rest;
    SplitAtFirst("categoria", rest, ':', 1);
  }

  lemma CategoryDataSplit(category: string)
    ensures Split(CategoryData(category), ':', 1) == ["categoria", category]
  {
    assert CategoryData(category) == "categoria" + [':'] + category;
    SplitAtFirst("categoria", category, ':', 1);
  }

  /**
    Category data decodes to exactly the category it was written from, even
    when the category holds colons itself, and nothing else decodes to it.
  */
  lemma DecodeCategory(data: string, category: string)
    ensures Decode(data) == Ok(ShowCategory(category)) <==> data == CategoryData(category)
  {
    if data == CategoryData(category) {
      CategoryDataSplit(category);
    }
    if Decode(data) == Ok(ShowCategory(category)) {
      assert StartsWith(data, CategoryPrefix);
      var rest := data[|CategoryPrefix|..];
      assert data == CategoryData(rest);
      CategoryDataSplit(rest);
    }
  }

  lemma ProductDataSplit(name: string, priceText: string)
    requires ':' !in name
    ensures Split(ProductData(name, priceText), ':', 2) == ["produto", name, priceText]
  {
    var rest := name + [':'] + priceText;
    assert ProductData(name, priceText) == "produto" + [':'] + rest;
    SplitAtFirst("produto", rest, ':', 2);
    SplitAtFirst(name, priceText, ':', 1);
  }

  lemma DecodeProductData(name: string, priceText: string)
    requires ':' !in name
    ensures Decode(ProductData(name, priceText)) == Ok(SelectProduct(name, priceText))
  {
    assert ProductData(name, priceText)[0] != CategoryPrefix[0];
    ProductDataSplit(name, priceText);
  }

  /** Only data starting `produto:` decodes to a product. */
  lemma DecodedIsProduct(data: string, name: string, priceText: string)
    requires Decode(data) == Ok(SelectProduct(name, priceText))
    ensures StartsWith(data, ProductPrefix)
  {
  }

  /** Data starting `produto:` is unpacked from its first two cuts. */
  lemma DecodeProductBranch(data: string)
    requires StartsWith(data, ProductPrefix)
    ensures var parts := Split(data, ':', 2);
      Decode(data) == if |parts| == 3 then Ok(SelectProduct(parts[1], parts[2])) else Err(UnpackError(|parts|))
  {
    assert data[0] == 'p';
  }

  /** The first cut of product data falls right after `produto`. */
  lemma ProductSplit(rest: string)
    ensures Split(ProductPrefix + rest, ':', 2) == ["produto"] + Split(rest, ':', 1)
  {
    assert ProductPrefix + rest == "produto" + [':'] + rest;
    SplitAtFirst("produto", rest, ':', 2);
  }

  lemma DecodedProductParts(data: string, name: string, priceText: string)
    requires Decode(data) == Ok(SelectProduct(name, priceText))
    ensures StartsWith(data, ProductPrefix)
    ensures Split(data[|ProductPrefix|..], ':', 1) == [name, priceText]
  {
    DecodedIsProduct(data, name, priceText);
    var rest := data[|ProductPrefix|..];
    assert data == ProductPrefix + rest;
    DecodeProductBranch(data);
    ProductSplit(rest);
  }

  /** Product data whose rest cuts into a name and a price is written from them. */
  lemma ProductDataOfParts(data: string, name: string, priceText: string)
    requires StartsWith(data, ProductPrefix)
    requires Split(data[|ProductPrefix|..], ':', 1) == [name, priceText]
    ensures data == ProductData(name, priceText) && ':' !in name
  {
    var rest := data[|ProductPrefix|..];
    SplitInTwo(rest, ':');
    assert data == ProductPrefix + rest;
  }

  lemma DecodedProductOrigin(data: string, name: string, priceText: string)
    requires Decode(data) == Ok(SelectProduct(name, priceText))
    ensures data == ProductData(name, priceText) && ':' !in name
  {
    DecodedProductParts(data, name, priceText);
    ProductDataOfParts(data, name, priceText);
  }

  /**
    Product data decodes to the name and price text it was written from
    exactly when the name holds no colon, and every decoded product comes
    from such data.
  */
  lemma DecodeProduct(data: string, name: string, priceText: string)
    ensures Decode(data) == Ok(SelectProduct(name, priceText)) <==> data == ProductData(name, priceText) && ':' !in name
  {
    if data == ProductData(name, priceText) && ':' !in name {
      DecodeProductData(name, priceText);
    }
    if Decode(data) == Ok(SelectProduct(name, priceText)) {
      DecodedProductOrigin(data, name, priceText);
    }
  }

  /**
    A name with a colon does not survive the trip: its text after the
    first colon is read as the start of the price.
  */
  lemma ColonInNameBreaksDecode(head: string, tail: string, priceText: string)
    requires ':' !in head
    ensures Decode(ProductData(head + ":" + tail, priceText)) == Ok(SelectProduct(head, tail + ":" + priceText))
    ensures head + ":" + tail != head
  {
    assert ProductData(head + ":" + tail, priceText) == ProductData(head, tail + ":" + priceText);
    DecodeProductData(head, tail + ":" + priceText);
  }

  /** A category's keyboard: one row per listed product, in catalog order, then "Voltar". */
  lemma CategoryKeyboardRows(category: string)
    ensures |CategoryKeyboard(category)| == |Lookup(category)| + 1
    ensures CategoryKeyboard(category)[|Lookup(category)|] == [BackButton]
    ensures forall k :: 0 <= k < |Lookup(category)| ==> CategoryKeyboard(category)[k] == [ProductButton(Lookup(category)[k])]
  {
  }

  /** A category the catalog does not have lists no product: only "Voltar" is offered. */
  lemma UnknownCategoryKeyboard(category: string)
    requires category !in Categories()
    ensures CategoryKeyboard(category) == [[BackButton]]
  {
    LookupCatalog(category);
    CategoryKeyboardRows(category);
  }

  /**
    Each product button of a catalog category decodes to the product's own
    name and to a price text whose value is the product's `price` field
    (not the price written in its name).
  */
  lemma ProductButtonsDecode(category: string, k: nat)
    requires k < |Lookup(category)|
    ensures var p := Lookup(category)[k];
      && Decode(CategoryKeyboard(category)[k][0].data) == Ok(SelectProduct(p.name, PriceText(p.price)))
      && DecimalCents(PriceText(p.price)) == Some(p.price)
  {
    var p := Lookup(category)[k];
    LookupCatalog(category);
    assert InCatalog(p);
    NamesHaveNoColon();
    CategoryKeyboardRows(category);
    DecodeProductData(p.name, PriceText(p.price));
    PriceTextValue(p.price);
  }

  /** Data that opens a category the catalog lists products under. */
  predicate OpensCategory(data: string) {
    && Decode(data).Ok?
    && Decode(data).value.ShowCategory?
    && Lookup(Decode(data).value.category) != []
  }

  lemma MenuKeyboardRows()
    ensures MenuKeyboard() == [[CategoryButton(ActivationCategory)], [CategoryButton(CreditsCategory)], [CreditsButton, CartButton]]
  {
  }

  lemma CatalogCategoriesOpen()
    ensures OpensCategory(CategoryData(ActivationCategory))
    ensures OpensCategory(CategoryData(CreditsCategory))
  {
    LookupCatalog(ActivationCategory);
    LookupCatalog(CreditsCategory);
    DecodeCategory(CategoryData(ActivationCategory), ActivationCategory);
    DecodeCategory(CategoryData(CreditsCategory), CreditsCategory);
  }

  /** A menu button either opens a catalog category or asks for the cart. */
  predicate MenuAction(b: Button) {
    OpensCategory(b.data) || b.data == "ver_carrinho"
  }

  lemma MenuButtonsAct()
    ensures MenuAction(CategoryButton(ActivationCategory))
    ensures MenuAction(CategoryButton(CreditsCategory))
    ensures MenuAction(CreditsButton)
    ensures MenuAction(CartButton)
  {
    CatalogCategoriesOpen();
    CreditsButtonData();
  }

  /** Every button of a keyboard is a menu action. */
  predicate AllMenuActions(kb: seq<seq<Button>>) {
    forall r, j :: 0 <= r < |kb| && 0 <= j < |kb[r]| ==> MenuAction(kb[r][j])
  }

  lemma MenuRowsAct(a: Button, b: Button, c: Button, d: Button)
    requires MenuAction(a) && MenuAction(b) && MenuAction(c) && MenuAction(d)
    ensures AllMenuActions([[a], [b], [c, d]])
  {
    var kb := [[a], [b], [c, d]];
    forall r, j | 0 <= r < |kb| && 0 <= j < |kb[r]|
      ensures MenuAction(kb[r][j])
    {
      if r == 0 {
        assert kb[r][j] == a;
      } else if r == 1 {
        assert kb[r][j] == b;
      } else if j == 0 {
        assert kb[r][j] == c;
      } else {
        assert kb[r][j] == d;
      }
    }
  }

  /**
    Every button of the menu either opens a catalog category or asks for the
    cart; "Comprar Créditos" opens the same category as the second row.
  */
  lemma MenuButtonsDecode()
    ensures AllMenuActions(MenuKeyboard())
    ensures MenuKeyboard()[2][0].data == MenuKeyboard()[1][0].data
  {
    MenuKeyboardRows();
    MenuButtonsAct();
    MenuRowsAct(CategoryButton(ActivationCategory), CategoryButton(CreditsCategory), CreditsButton, CartButton);
    CreditsButtonData();
  }

  lemma CreditsButtonData()
    ensures CreditsButton.data == CategoryData(CreditsCategory)
  {
  }

  lemma SeventyText()
    ensures PriceText(7000) == "70.0"
  {
    assert NatText(7) == "7";
    assert NatText(70) == NatText(7) + "0";
    assert FractionText(0) == "0";
  }

  /** The SMART ONE button, named "R$60", carries the price 70.00 of its `price` field. */
  lemma SmartOneCarriesItsPriceField()
    ensures Decode(ProductButton(SmartOne).data) == Ok(SelectProduct(SmartOne.name, "70.0"))
  {
    SmartOneColonFree();
    SeventyText();
    DecodeProductData(SmartOne.name, "70.0");
  }
}
