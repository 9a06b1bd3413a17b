# Sales bot core: registration, callback data, catalog and monthly report

This project models the logic of a Telegram sales bot for app activations
and credit packs. The rest of the bot is glue to Telegram, Mercado Pago and
Flask. The model covers four parts:

- **Registration** (`registration.dfy`). The `start`, `ask_phone` and
  `save_phone` handlers update a per-user dictionary in place and return
  the conversation's next state. The dictionary is a class `UserData` with
  a `map` field. Each handler is a method proved against a function of the
  data it finds.
- **Callback data** (`callback.dfy`). Menu and category keyboards write a
  choice as `categoria:<category>` or `produto:<name>:<price>`. The button
  handler reads it back with `split(":", 1)` and `split(":", 2)`. This
  module proves the round trip for names without a colon, and shows
  exactly how `split(":", 2)` on line 138 misreads a name with a colon.
  That lemma describes only the unpacking: the misread price text then
  holds a colon, so `float(preco)` on line 139 raises `ValueError` and no
  product is selected.
- **Catalog** (`catalog.dfy`). This is the static `PRODUCT_CATALOG` and
  `MAC_REQUIRED_PRODUCTS`, with prices in integer cents and names with
  their exact code points.
  - The MAC-required set is exactly the set of "ATIVAR APP" names.
  - An unknown category lists nothing.
- **Monthly report** (`report.dfy`). `gerar_relatorio_mensal` keeps only
  orders whose status is `"pago"`. For each one it records the month
  (`%Y-%m` of `created_at`), the total and the item count. It then groups
  the records by month, in increasing month order, into orders, items and
  amount collected.
  - The loop is a method proved against the filter.
  - The grouping is a function that meets a declarative description, and
    that description admits only one summary.
  - Over all months the summary conserves the number of paid orders, their
    items and their amount.

`strings.dfy` models the Python string built-ins the core relies on:
`str.strip`, `str.isdigit`, `str.startswith` and `str.split(sep, maxsplit)`,
plus the join that inverts split, and `str(float)` for prices held in cents.
`wrappers.dfy` holds `Option` and `Result`.

The catalog's labels and prices disagree in two places. "SMART ONE R$60"
is priced 70.00, and "UPPER PLAY (15,00und)" is priced 150.00. A product
button carries the `price` field, not the label, so the model takes the
`price` field as authoritative (`Callback.SmartOneCarriesItsPriceField`).
The menu offers the credits category twice: once from the catalog loop and
once as the extra "Comprar Créditos" button. Both carry the same data
(`Callback.MenuButtonsDecode`).

## Model

| member | source | states |
|---|---|---|
| Strings.StripLeft | bot_completo_railway_ready.py:106 | the result is a suffix of the text, what was removed is all whitespace, and it starts with a non-space |
| Strings.IsSpace | bot_completo_railway_ready.py:106 | the characters `strip()` removes: exactly those for which Python's `str.isspace` holds |
| Strings.StripRight | bot_completo_railway_ready.py:106 | the result is a prefix of the text, what was removed is all whitespace, and it ends with a non-space |
| Strings.Strip | bot_completo_railway_ready.py:106 | `strip()` is no longer than the text, and it neither starts nor ends with whitespace |
| Strings.StripLeftOfPadded | bot_completo_railway_ready.py:106 | leading whitespace before a text that starts with a non-space is removed exactly |
| Strings.StripRightOfPadded | bot_completo_railway_ready.py:106 | trailing whitespace after a text that ends with a non-space is removed exactly |
| Strings.StripExact | bot_completo_railway_ready.py:106 | `strip()` of whitespace + t + whitespace is t, when t has no whitespace at either end |
| Strings.StripIdempotent | bot_completo_railway_ready.py:106 | stripping twice is stripping once |
| Strings.StrippedIsFixed | bot_completo_railway_ready.py:106 | a text that neither starts nor ends with whitespace is its own `strip()` |
| Strings.DigitsAreStripped | bot_completo_railway_ready.py:106-107 | a text that passes `isdigit()` is unchanged by `strip()` |
| Strings.IsDigits | bot_completo_railway_ready.py:107 | `isdigit()`: a non-empty text made only of the digits 0-9 |
| Strings.DigitChar | bot_completo_railway_ready.py:133 | a digit value is written as a decimal digit |
| Strings.DigitValue | bot_completo_railway_ready.py:133 | a decimal digit's value is below ten and is written back as that digit |
| Strings.NatText | bot_completo_railway_ready.py:133 | `str(n)` is a non-empty digit string with no leading zero unless n is 0 |
| Strings.NatTextValue | bot_completo_railway_ready.py:133 | reading `str(n)` back gives n |
| Strings.StartsWith | bot_completo_railway_ready.py:130 | `data.startswith(prefix)`: the prefix is no longer than the data and the data begins with it (also the test on line 137) |
| Strings.IndexOf | bot_completo_railway_ready.py:131 | the index found is that of the first occurrence of the separator |
| Strings.IndexOfFirst | bot_completo_railway_ready.py:131 | an index holding the separator, with none before it, is the one found |
| Strings.JoinCons | bot_completo_railway_ready.py:138 | joining a head onto two or more parts puts one separator after the head |
| Strings.Join | bot_completo_railway_ready.py:138 | `sep.join(parts)`: the parts with one separator between neighbours |
| Strings.SepOnlyInLastOfRest | bot_completo_railway_ready.py:138 | dropping the first part keeps "only the last part may hold the separator" |
| Strings.Split | bot_completo_railway_ready.py:131 | `split(sep, maxsplit)` gives between 1 and maxsplit + 1 parts |
| Strings.SplitCuts | bot_completo_railway_ready.py:131 | a text holding the separator splits into at least two parts when maxsplit > 0 |
| Strings.SplitShape | bot_completo_railway_ready.py:138 | only the last part can hold the separator, and it holds none when fewer than maxsplit + 1 parts came out |
| Strings.SplitAtFirst | bot_completo_railway_ready.py:138 | splitting head + sep + tail, for a head without the separator, gives the head and then the split of the tail |
| Strings.JoinSplit | bot_completo_railway_ready.py:138 | joining the parts of a split with the separator gives back the text |
| Strings.SplitInTwo | bot_completo_railway_ready.py:131 | a split into two parts cuts at the first separator |
| Strings.SplitJoinSingle | bot_completo_railway_ready.py:138 | a single part without the separator splits back to itself |
| Strings.SplitJoinStep | bot_completo_railway_ready.py:138 | a split round trip on the rest extends to one more separator-free head |
| Strings.SplitShapedOf | bot_completo_railway_ready.py:138 | parts with at most `maxsplit + 1` entries and the separator in none but a full last one have, part by part, the shape `split` produces |
| Strings.SplitJoinShaped | bot_completo_railway_ready.py:138 | splitting the join of parts of that shape gives the parts back, by induction on the parts |
| Strings.SplitJoin | bot_completo_railway_ready.py:138 | splitting a join gives the parts back, when only the last part holds the separator and not even that one if fewer than maxsplit + 1 parts |
| Strings.FractionText | bot_completo_railway_ready.py:133 | the digits after the point in `str(price)` are one or two digits |
| Strings.FractionTextValue | bot_completo_railway_ready.py:133 | those digits stand for the cents they were written from |
| Strings.PriceText | bot_completo_railway_ready.py:133 | the price text holds a decimal point and no colon |
| Strings.PriceTextParts | bot_completo_railway_ready.py:133 | the price text splits at its point into the whole units and the fraction digits |
| Strings.DecimalCents | bot_completo_railway_ready.py:139 | reads `<digits>.<one or two digits>` as cents and gives None for any other text; only the texts `PriceText` writes are read back |
| Strings.PriceTextValue | bot_completo_railway_ready.py:133 | the price text written into a product button reads back as the same number of cents |
| Catalog.MacRequired | bot_completo_railway_ready.py:30-43 | `MAC_REQUIRED_PRODUCTS`, the twelve names written out code point by code point |
| Catalog.Entries | bot_completo_railway_ready.py:45-69 | `PRODUCT_CATALOG` in insertion order: "ATIVAR APP" with its activation products, then the credit packs, each with its name and its price in cents |
| Catalog.Categories | bot_completo_railway_ready.py:45-69 | the categories are the catalog's keys in their order |
| Catalog.LookupIn | bot_completo_railway_ready.py:132 | `dict.get(key, [])` gives the first entry under the key, or the empty list when no entry has it |
| Catalog.Lookup | bot_completo_railway_ready.py:132 | `PRODUCT_CATALOG.get(key, [])` over the catalog's entries |
| Catalog.CategoriesDistinct | bot_completo_railway_ready.py:45-69 | the catalog's keys are distinct |
| Catalog.LookupCatalog | bot_completo_railway_ready.py:45-69 | looking up "ATIVAR APP" or "COMPRAR CRÉDITOS" gives their lists, and any other key gives the empty list |
| Catalog.InCatalogByLookup | bot_completo_railway_ready.py:45-69 | a product is in the catalog exactly when some category's lookup lists it |
| Catalog.MacRequiredAreActivations | bot_completo_railway_ready.py:30-69 | the MAC-required names are exactly the "ATIVAR APP" names, and no credit pack requires a MAC |
| Catalog.MacNamesAreActivationNames | bot_completo_railway_ready.py:30-58 | every MAC-required name is an "ATIVAR APP" name |
| Catalog.ActivationNamesNeedMac | bot_completo_railway_ready.py:30-58 | every "ATIVAR APP" name is MAC-required |
| Catalog.CreditNamesNeedNoMac | bot_completo_railway_ready.py:30-68 | no credit pack's name is MAC-required |
| Catalog.PricesPositive | bot_completo_railway_ready.py:45-69 | every catalog price is positive |
| Catalog.AssistColonFree | bot_completo_railway_ready.py:47 | this product's name holds no colon |
| Catalog.NinjaPlayerColonFree | bot_completo_railway_ready.py:48 | this product's name holds no colon |
| Catalog.MegaIptvColonFree | bot_completo_railway_ready.py:49 | this product's name holds no colon |
| Catalog.SmartOneColonFree | bot_completo_railway_ready.py:50 | this product's name holds no colon |
| Catalog.IboProPlayerColonFree | bot_completo_railway_ready.py:51 | this product's name holds no colon |
| Catalog.IboTvOficialColonFree | bot_completo_railway_ready.py:52 | this product's name holds no colon |
| Catalog.DuplecastColonFree | bot_completo_railway_ready.py:53 | this product's name holds no colon |
| Catalog.BayTvColonFree | bot_completo_railway_ready.py:54 | this product's name holds no colon |
| Catalog.QuickPlayerColonFree | bot_completo_railway_ready.py:55 | this product's name holds no colon |
| Catalog.TiviPlayerColonFree | bot_completo_railway_ready.py:56 | this product's name holds no colon |
| Catalog.SuperPlayColonFree | bot_completo_railway_ready.py:57 | this product's name holds no colon |
| Catalog.ClouddyColonFree | bot_completo_railway_ready.py:58 | this product's name holds no colon |
| Catalog.XServerPlayColonFree | bot_completo_railway_ready.py:61 | this product's name holds no colon |
| Catalog.FastPlayerColonFree | bot_completo_railway_ready.py:62 | this product's name holds no colon |
| Catalog.GoldPlayColonFree | bot_completo_railway_ready.py:63 | this product's name holds no colon |
| Catalog.EiTvColonFree | bot_completo_railway_ready.py:64 | this product's name holds no colon |
| Catalog.ZTechColonFree | bot_completo_railway_ready.py:65 | this product's name holds no colon |
| Catalog.GenialPlayColonFree | bot_completo_railway_ready.py:66 | this product's name holds no colon |
| Catalog.UpperPlayColonFree | bot_completo_railway_ready.py:67 | this product's name holds no colon |
| Catalog.NamesHaveNoColon | bot_completo_railway_ready.py:45-69 | no catalog product's name holds a colon, so every product button round-trips |
| Callback.CategoryDataSplit | bot_completo_railway_ready.py:118-131 | `categoria:<c>` splits once into the tag and exactly c |
| Callback.CategoryData | bot_completo_railway_ready.py:118 | a category button's data: `categoria:` followed by the category |
| Callback.CategoryButton | bot_completo_railway_ready.py:118 | a menu row's button: the category after the box emoji, with its category data |
| Callback.ProductData | bot_completo_railway_ready.py:133 | a product button's data: `produto:`, the name, a colon and the price text |
| Callback.ProductButton | bot_completo_railway_ready.py:133 | a product's button: labelled with its name and carrying its `price` field written as `str(price)` |
| Callback.MenuKeyboard | bot_completo_railway_ready.py:117-122 | one row per catalog category in order, then the credits and cart buttons |
| Callback.CategoryKeyboard | bot_completo_railway_ready.py:132-134 | one row per product the category lists, then "Voltar" |
| Callback.Decode | bot_completo_railway_ready.py:130-138 | `categoria:` data names everything after its first colon; `produto:` data is cut at its first two colons into name and price text, or fails with `UnpackError(count)` when fewer than three parts come out; any other data is `Unmatched` |
| Callback.DecodeCases | bot_completo_railway_ready.py:130-138 | data is left unmatched exactly when it starts with neither prefix, and then unchanged; it opens a category exactly when it starts with `categoria:`, and that category is the text after the prefix; a decode error happens only on `produto:` data and always with two parts |
| Callback.CategoryRest | bot_completo_railway_ready.py:130-131 | `split(":", 1)` of `categoria:` data gives two parts, and the second is everything after the prefix |
| Callback.DecodeCategory | bot_completo_railway_ready.py:118-131 | data decodes to category c exactly when it is `categoria:` + c, even when c holds colons |
| Callback.ProductDataSplit | bot_completo_railway_ready.py:133-138 | `produto:<name>:<price>` splits twice into the tag, the name and the price text when the name has no colon |
| Callback.DecodeProductData | bot_completo_railway_ready.py:133-138 | product data written from a colon-free name decodes to that name and price text |
| Callback.DecodedProductParts | bot_completo_railway_ready.py:137-138 | data that decodes to a product starts with `produto:` and its rest splits once into the name and the price text |
| Callback.DecodedProductOrigin | bot_completo_railway_ready.py:137-138 | data that decodes to a product is exactly that product's data, with a colon-free name |
| Callback.DecodedIsProduct | bot_completo_railway_ready.py:130-137 | only data starting `produto:` decodes to a product |
| Callback.DecodeProductBranch | bot_completo_railway_ready.py:137-138 | data starting `produto:` selects a product when it cuts into three parts at its first two colons, and otherwise fails to unpack with the number of parts |
| Callback.ProductSplit | bot_completo_railway_ready.py:137-138 | the first colon of product data is the one right after `produto` |
| Callback.ProductDataOfParts | bot_completo_railway_ready.py:133-138 | product data whose rest cuts once into a name and a price text is the data written from them, and the name holds no colon |
| Callback.DecodeProduct | bot_completo_railway_ready.py:133-138 | data decodes to (name, price text) exactly when it was written from them and the name holds no colon |
| Callback.ColonInNameBreaksDecode | bot_completo_railway_ready.py:133-138 | a name with a colon is cut at its first colon and the rest of it is read as part of the price text (only the unpacking of line 138: that price text holds a colon, so `float(preco)` on line 139 then raises) |
| Callback.CategoryKeyboardRows | bot_completo_railway_ready.py:132-134 | a category keyboard has one row per listed product, in catalog order, and then "Voltar" |
| Callback.UnknownCategoryKeyboard | bot_completo_railway_ready.py:132-134 | a category the catalog does not have gets only the "Voltar" button |
| Callback.ProductButtonsDecode | bot_completo_railway_ready.py:133-138 | each product button of a catalog category decodes to the product's name and to a price text worth its `price` field |
| Callback.MenuKeyboardRows | bot_completo_railway_ready.py:117-122 | the menu is one row per category in catalog order, then credits and cart |
| Callback.CatalogCategoriesOpen | bot_completo_railway_ready.py:118-132 | the data of both catalog categories decodes to a category that lists products |
| Callback.MenuButtonsAct | bot_completo_railway_ready.py:117-132 | each menu button opens a non-empty catalog category or asks for the cart |
| Callback.MenuRowsAct | bot_completo_railway_ready.py:117-122 | a keyboard of such buttons has only such buttons |
| Callback.MenuButtonsDecode | bot_completo_railway_ready.py:117-132 | every menu button opens a non-empty category or asks for the cart, and "Comprar Créditos" carries the same data as the second category row |
| Callback.CreditsButtonData | bot_completo_railway_ready.py:118-120 | the extra credits button carries the credits category's data |
| Callback.SeventyText | bot_completo_railway_ready.py:133 | 70.00 is written "70.0" |
| Callback.SmartOneCarriesItsPriceField | bot_completo_railway_ready.py:50-138 | the SMART ONE button, labelled R$60, decodes to the price text "70.0" |
| Registration.IsRegistered | bot_completo_railway_ready.py:94 | a user is registered exactly when both `name` and `phone` are in the user data |
| Registration.StartStep | bot_completo_railway_ready.py:92-98 | `start` changes nothing, and ends the conversation exactly when name and phone are on record, otherwise asks for the name |
| Registration.AskPhoneStep | bot_completo_railway_ready.py:100-103 | `ask_phone` stores the text as the name, changes no other key and asks for the phone |
| Registration.SavePhoneStep | bot_completo_railway_ready.py:105-115 | `save_phone` leaves the data alone or stores only the trimmed phone, and ends, re-asks or fails on the name |
| Registration.UserData.Start | bot_completo_railway_ready.py:92-98 | the method returns END exactly when name and phone are on record, and ASK_NAME otherwise |
| Registration.UserData.AskPhoneFor | bot_completo_railway_ready.py:100-103 | the method's new data and state are those of `ask_phone` |
| Registration.UserData.SavePhone | bot_completo_railway_ready.py:105-115 | the method's new data and outcome are those of `save_phone` |
| Registration.SavePhoneRejects | bot_completo_railway_ready.py:106-109 | a text is refused, with the data unchanged and ASK_PHONE again, exactly when its trimmed form is not all digits (the empty text included) |
| Registration.SavePhoneStoresTrimmed | bot_completo_railway_ready.py:106-115 | an accepted phone is stored trimmed under "phone", no other key changes, and the conversation ends exactly when a name is on record |
| Registration.PaddedPhoneAccepted | bot_completo_railway_ready.py:106-115 | whitespace around the digits is dropped and the digits are stored |
| Registration.SavePhoneIdempotent | bot_completo_railway_ready.py:105-115 | sending the same text twice gives the same data and outcome as sending it once |
| Registration.SavePhoneOfDigits | bot_completo_railway_ready.py:106-115 | a text of digits alone is stored as sent |
| Registration.StoredPhoneReaccepted | bot_completo_railway_ready.py:106-115 | the stored phone, sent again, is accepted and changes nothing |
| Registration.SavePhoneWithoutName | bot_completo_railway_ready.py:110-111 | without a name on record the phone is stored and then the name lookup raises `KeyError` |
| Registration.RegistrationCompletes | bot_completo_railway_ready.py:94-115 | after a name and an accepted phone the conversation ends with both on record as sent (the phone trimmed), other keys unchanged, and a later `start` ends at once |
| Registration.RegisteredStaysRegistered | bot_completo_railway_ready.py:92-115 | no handler unregisters a registered user |
| Registration.RefusedPhoneKeepsUnregistered | bot_completo_railway_ready.py:94-109 | a refused phone leaves an unregistered user unregistered, so `start` asks for the name again |
| Report.PadDigits | relatorio.py:19 | a zero-padded field has exactly its width |
| Report.IsTimestamp | relatorio.py:18 | the `created_at` texts `strptime(..., "%Y-%m-%d %H:%M:%S")` accepts in zero-padded form: the shape, a year from 1000, a month 1-12, a day within that month (leap years included), and hours, minutes and seconds in range |
| Report.MonthKey | relatorio.py:19 | `strftime("%Y-%m")`: the parsed year in four digits, a dash, and the parsed month in two digits |
| Report.PadDigitsValue | relatorio.py:18-19 | writing back the value of a digit field with its width gives the field |
| Report.MonthKeyIsPrefix | relatorio.py:18-19 | `strftime("%Y-%m")` of a well-formed `created_at` is its first seven characters |
| Report.IsPaid | relatorio.py:16 | an order is paid exactly when it has a `status` and that status is `"pago"`; a missing status, like `get` returning `None`, is not paid |
| Report.PaidOrders | relatorio.py:15-17 | the kept orders are no more than the stored ones, each of them stored and paid |
| Report.ItemsTotal | relatorio.py:20 | `sum(item["price"] for item in items)`: the prices added up, 0 for no items |
| Report.PaidOrdersMembers | relatorio.py:15-17 | an order is kept exactly when it is stored and its status is "pago" |
| Report.NoPaidOrders | relatorio.py:24-26 | nothing is kept exactly when no order is paid |
| Report.RecordOf | relatorio.py:18-22 | a paid order's record has its month prefix, the sum of its item prices and its item count |
| Report.RecordsOf | relatorio.py:14-22 | one record per order |
| Report.PaidRecords | relatorio.py:14-22 | `dados` after the loop: the record of every paid order, in stored order |
| Report.PaidOrdersTimestamped | relatorio.py:15-18 | every kept order has a creation time `strptime` accepts |
| Report.PrefixPaidTimestamped | relatorio.py:15-18 | that requirement holds for every prefix of the orders |
| Report.PaidRecordsStep | relatorio.py:15-22 | one iteration appends the record of a paid order and nothing for any other order |
| Report.CollectPaid | relatorio.py:14-22 | the loop builds `dados` as one record per paid order, in stored order |
| Report.LexLess | relatorio.py:29 | Python's string order on group keys: the first differing code point decides, and a proper prefix comes first |
| Report.LexIrreflexive | relatorio.py:29 | no month key sorts before itself |
| Report.LexTransitive | relatorio.py:29 | the string order used to sort group keys is transitive |
| Report.LexTotal | relatorio.py:29 | of two different keys one sorts first |
| Report.SortedDistinct | relatorio.py:29-33 | strictly sorted keys are pairwise distinct |
| Report.SortedCons | relatorio.py:29 | a key below the first of sorted keys can lead them |
| Report.SortedConsBelow | relatorio.py:29 | a key below all of sorted keys can lead them |
| Report.Insert | relatorio.py:29 | inserting a key keeps the keys sorted and adds exactly that key |
| Report.SortedMonths | relatorio.py:29 | the group keys are the records' months, sorted and without repeats |
| Report.SumIn | relatorio.py:30-32 | a month's order count and item count are never negative |
| Report.TalliesField | relatorio.py:30-32 | a row's aggregate is the sum of that measure over its month's records |
| Report.IsMonthlySummary | relatorio.py:29-33 | a summary has strictly increasing months, exactly the months of the records, and for each month its record count, item sum and amount sum |
| Report.Summarize | relatorio.py:28-33 | the grouped frame is a monthly summary: sorted distinct months, exactly those that occur, each with its aggregates |
| Report.MonthsOfRecords | relatorio.py:29 | every record's month is a group key |
| Report.MonthsAreOccupied | relatorio.py:29-30 | every group key has at least one record |
| Report.SummaryRowsOccupied | relatorio.py:29-33 | every row of the summary counts at least one paid order |
| Report.SumOverSnoc | relatorio.py:29-33 | one more record adds its weight to the one listed month it belongs to |
| Report.Conservation | relatorio.py:29-33 | summed over distinct months that cover all records, each aggregate equals its grand total |
| Report.ZeroOver | relatorio.py:29-33 | no records give zero in every month |
| Report.SumRowsByMonth | relatorio.py:29-33 | summing a column equals summing the month aggregates over the row months |
| Report.SummaryConserves | relatorio.py:29-33 | each summary column adds up to the grand total of its measure over the records |
| Report.RecordTotals | relatorio.py:20-22 | the records' grand totals are the number of orders, their item count and their amount |
| Report.SortedUnique | relatorio.py:29 | two strictly sorted key lists with the same keys are equal |
| Report.BelowFirst | relatorio.py:29 | a key below the first of sorted keys is not among them |
| Report.SummaryUnique | relatorio.py:29-33 | the monthly-summary description admits exactly one table |
| Report.GenerateMonthlyReport | relatorio.py:14-33 | no summary exactly when no order is paid, otherwise the monthly summary of the paid orders' records |
| Report.ReportConserves | relatorio.py:14-33 | over all months `pedidos` adds up to the number of paid orders, `itens` to their items and `arrecadado` to their amount |

## Left out

- Telegram I/O is not modelled: replies, message edits, keyboard rendering, `ParseMode` and `query.answer()`. Only the returned states and the callback strings are.
- The Flask `/webhook` endpoint, `run_webhook` and threading are network and concurrency glue.
- Mercado Pago SDK calls, `qrcode`, `load_dotenv`, environment reads and logging are foreign libraries or configuration I/O.
- The `ConversationHandler` wiring that ties states to handlers is not part of this model. `ASK_MAC` is declared, but no modelled handler returns it.
- Everything from `bot_completo_railway_ready.py:139` on is not part of this model: `float(preco)` (beyond `Strings.DecimalCents` reading back the texts `PriceText` writes), `selected_product`, the MAC step, the cart, checkout and the later branches of `button_handler`. `Callback.Decode` returns `Unmatched` for data those branches would handle.
- Registration.UserData: the values of the user dictionary are strings. The `selected_product` dictionary stored at line 140 is outside the model.
- Strings.IsDigits: `str.isdigit` is modelled on ASCII digits only. Python also accepts other Unicode digits, such as superscripts.
- Strings.PriceText: it models `str(float)` only for non-negative amounts in whole cents, and not the exponent form of very large floats. Prices are integer cents instead of binary floats, so float rounding in `sum` (relatorio.py:20) is not modelled either.
- Report.GenerateMonthlyReport: the file existence check, JSON loading, the printed messages and the CSV written by pandas are I/O. The method returns the summary rows instead of writing them.
- Report.CollectPaid: requires every paid order's `created_at` to be in the zero-padded `YYYY-MM-DD HH:MM:SS` form with a valid date and time, a year from 1000 on and seconds up to 59. `strptime` also accepts single-digit fields, for which the month key is not the text's prefix. The `ValueError` it raises on other text is not modelled. Years before 1000 are left out because `strftime("%Y")` pads them differently across platforms.
- Report.Order: missing `created_at`, `items` or `price` keys (a `KeyError` in the source) are not modelled; every stored order has them. The orders are the values of the stored JSON object in its order, and their ids are dropped.
