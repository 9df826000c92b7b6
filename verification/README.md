# Store: a Dafny model of the cart workflow, the criteria queries and the page's cart builder

This project models the core of a generated web store (carts, items and orders) and proves
properties of the model. It covers five parts:

- **The entities.** `Item`, `Order` and `Cart` are mutable classes. They carry their
  bean-validation constraints, the cart email pattern, the fluent setters,
  `addOrder`/`removeOrder`, and the id-based `equals`/`hashCode`.
- **The close workflow.** Saving a cart that has no close date closes it:
  - each ordered item's stock is lowered by the order's quantity, in Java `int` arithmetic
    and without a check;
  - the touched items are saved as one batch;
  - the cart is stamped with today's date and stored;
  - one ticket is mailed.

  A cart that is already closed is left alone. Deleting a cart removes it from the table.
- **The criteria queries.** A criteria object becomes a conjunction of one condition per
  present JHipster filter. The list, the page and the count all use that one condition.
- **The transfer objects.** These are the criteria classes (copy, equality, hashing) and
  the order DTO, with the order mapper between entity and DTO.
- **The page's cart builder.** The page keeps the cart as an array of client orders and
  a pending order. Opening the dialog on an item already in the cart makes the pending
  order the cart's own entry (an alias), and the model keeps that alias explicit.

Modules follow the program's packages:

| module | file | contents |
|---|---|---|
| `Wrappers` | `wrappers.dfy` | `Option` |
| `JavaLang` | `java_lang.dfy` | `int` wrap-around, UTF-16 length, `Objects.hash` / `Long.hashCode` |
| `EmailPattern` | `email_pattern.dfy` | the cart email pattern: an automaton, proved equal to a declarative description |
| `Domain` | `domain.dfy` | `Item`, `Order`, `Cart` |
| `Filters` | `filters.dfy` | filter values and what each one requires of a column |
| `Dto` | `dto.dfy` | `CartCriteria`, `ItemCriteria`, `OrderCriteria`, `OrderDTO` |
| `Paging` | `paging.dfy` | page slices |
| `CartQuery` | `cart_query.dfy` | the cart query service |
| `ItemQuery` | `item_query.dfy` | the item query service |
| `OrderMapper` | `order_mapper.dfy` | the order mapper |
| `CartService` | `cart_service.dfy` | `save`, `close`, `delete` |
| `Home` | `home.dfy` | `toggle`, `handleOrderQuantityChange`, `addToCart`, `canAddToCart` |

Some things outside the program become parameters or a log:

- the clock is a `today` parameter;
- the mail service and the item repository's `saveAll` are entries in a ghost event log;
- the cart repository is a map from id to cart, with an id sequence;
- the item table is a map from item id to stock count.

## Model

| member | source | states |
|---|---|---|
| JavaLang.Wrap32 | src/main/java/com/store/service/impl/CartServiceImpl.java:77 | the result of `int` subtraction is always a Java `int` |
| JavaLang.WrapClosedForm | src/main/java/com/store/service/impl/CartServiceImpl.java:77 | wrap-around equals `(x + 2^31) mod 2^32 - 2^31` |
| JavaLang.WrapThenSubtract | src/main/java/com/store/service/impl/CartServiceImpl.java:74-78 | subtracting order by order, wrapping each time, gives the same count as subtracting the total once and wrapping |
| JavaLang.Utf16Length | src/main/java/com/store/domain/Item.java:29 | `String.length()` is between the character count and twice it, and equals it when no character is outside the BMP |
| JavaLang.ArraysHash | src/main/java/com/store/service/dto/CartCriteria.java:88-94 | `Objects.hash` is an `int` and is 1 for no arguments |
| JavaLang.LongHash | src/main/java/com/store/service/dto/OrderDTO.java:81-83 | `Long.hashCode` of a `long` is an `int` |
| EmailPattern.MatchesIsEmail | src/main/java/com/store/domain/Cart.java:33 | the pattern accepts a string iff it is a non-empty local part of the allowed characters, one '@', and dot-separated non-empty labels |
| EmailPattern.AcceptedHasOneAt | src/main/java/com/store/domain/Cart.java:33 | an accepted address has exactly one '@' |
| EmailPattern.TestAddressesAccepted | src/test/java/com/store/web/rest/CartResourceIT.java:44-45 | the two addresses the resource tests store are accepted |
| EmailPattern.ApostropheAndLabelsAccepted | src/main/java/com/store/domain/Cart.java:33 | the typographic apostrophe U+2019 is a local-part character, and several labels are allowed |
| EmailPattern.MissingPartRejected | src/main/java/com/store/domain/Cart.java:33 | an empty local part or domain is rejected |
| EmailPattern.SecondAtRejected | src/main/java/com/store/domain/Cart.java:33 | a second '@' is rejected |
| EmailPattern.StrayDotRejected | src/main/java/com/store/domain/Cart.java:33 | a leading, trailing or doubled dot in the domain is rejected |
| EmailPattern.ForeignCharacterRejected | src/main/java/com/store/domain/Cart.java:33 | characters outside both classes are rejected |
| Domain.Item.constructor | src/main/java/com/store/domain/Item.java:26-53 | a new item has every field null |
| Domain.Item.SetCount | src/main/java/com/store/domain/Item.java:112-114 | only the count changes |
| Domain.Item.WithImage | src/main/java/com/store/domain/Item.java:120-123 | the fluent `image` setter returns the same item, changes only the image, and keeps validity |
| Domain.Item.WithImageContentType | src/main/java/com/store/domain/Item.java:133-136 | the fluent `imageContentType` setter returns the same item, changes only the content type, and keeps validity |
| Domain.ValidItemBounds | src/main/java/com/store/domain/Item.java:28-46 | a valid item's title has 3..20 UTF-16 units, so 2..20 characters, and its description 2..10240 characters; price and count are not negative |
| Domain.ItemEquality | src/main/java/com/store/domain/Item.java:143-157 | item `equals` is reflexive, symmetric and transitive; with a null id an item equals only itself; equal items hash alike |
| Domain.Order.constructor | src/main/java/com/store/domain/Order.java:27-40 | a new order has every field null |
| Domain.Order.WithQuantity | src/main/java/com/store/domain/Order.java:55-58 | sets only the quantity and returns the same order |
| Domain.Order.WithCart | src/main/java/com/store/domain/Order.java:68-71 | sets only the cart and returns the same order |
| Domain.Order.WithItem | src/main/java/com/store/domain/Order.java:81-84 | sets only the item and returns the same order |
| Domain.Order.SetCart | src/main/java/com/store/domain/Order.java:73-75 | only the back-reference changes |
| Domain.OrderEquality | src/main/java/com/store/domain/Order.java:91-105 | order `equals` is an id-based equivalence consistent with the constant hash |
| Domain.Cart.constructor | src/main/java/com/store/domain/Cart.java:30-42 | a new cart has null fields and an empty order set |
| Domain.Cart.SetClosedAt | src/main/java/com/store/domain/Cart.java:75-77 | only the close date changes |
| Domain.Cart.AddOrder | src/main/java/com/store/domain/Cart.java:88-92 | the order joins the set unless an equal one is there; its back-reference is set either way; no two equal orders are ever held |
| Domain.Cart.RemoveOrder | src/main/java/com/store/domain/Cart.java:94-98 | the order equal to the argument leaves the set, and the argument's back-reference is cleared; with no duplicates, no equal order remains |
| Domain.CartEquality | src/main/java/com/store/domain/Cart.java:105-119 | cart `equals` is an id-based equivalence consistent with the constant hash |
| Domain.ValidCartEmail | src/main/java/com/store/domain/Cart.java:32-35 | a valid cart's email splits at its only '@' into a local part and a domain |
| Domain.AddThenRemove | src/main/java/com/store/domain/Cart.java:88-98 | adding and then removing an order leaves a duplicate-free set without it and the order detached |
| Filters.OperatorMeanings | src/main/java/com/store/service/ItemQueryService.java:88-103 | on a present value: `equals` is equality, `in` is membership, `specified=true` holds, `greaterOrEqualThan` is inclusive, `lessThan` is strict |
| Filters.NullMeanings | src/main/java/com/store/service/ItemQueryService.java:88-103 | on a null column only `specified=false` holds |
| Dto.CartCriteria.constructor | src/main/java/com/store/service/dto/CartCriteria.java:33-34 | no filter is set |
| Dto.CartCriteria.From | src/main/java/com/store/service/dto/CartCriteria.java:36-41 | the copy constructor copies every filter |
| Dto.CartCriteria.Copy | src/main/java/com/store/service/dto/CartCriteria.java:43-45 | `copy()` is a new object equal to the original, both ways |
| Dto.CartCriteria.SetId | src/main/java/com/store/service/dto/CartCriteria.java:51-53 | only the id filter changes |
| Dto.CartCriteria.SetEmail | src/main/java/com/store/service/dto/CartCriteria.java:59-61 | only the email filter changes |
| Dto.CartCriteria.SetOrderId | src/main/java/com/store/service/dto/CartCriteria.java:67-69 | only the order-id filter changes |
| Dto.CartCriteria.HashCode | src/main/java/com/store/service/dto/CartCriteria.java:87-94 | the hash is an `int` |
| Dto.CartCriteriaEquality | src/main/java/com/store/service/dto/CartCriteria.java:72-94 | `equals` is field-wise equality, an equivalence, and agrees with `hashCode` |
| Dto.ItemCriteria.constructor | src/main/java/com/store/service/dto/ItemCriteria.java:37-38 | no filter is set |
| Dto.ItemCriteria.From | src/main/java/com/store/service/dto/ItemCriteria.java:40-47 | the copy constructor copies every filter |
| Dto.ItemCriteria.Copy | src/main/java/com/store/service/dto/ItemCriteria.java:49-51 | `copy()` is a new object equal to the original, both ways |
| Dto.ItemCriteria.SetId | src/main/java/com/store/service/dto/ItemCriteria.java:57-59 | only the id filter changes |
| Dto.ItemCriteria.SetTitle | src/main/java/com/store/service/dto/ItemCriteria.java:65-67 | only the title filter changes |
| Dto.ItemCriteria.SetDescription | src/main/java/com/store/service/dto/ItemCriteria.java:73-75 | only the description filter changes |
| Dto.ItemCriteria.SetPrice | src/main/java/com/store/service/dto/ItemCriteria.java:81-83 | only the price filter changes |
| Dto.ItemCriteria.SetCount | src/main/java/com/store/service/dto/ItemCriteria.java:89-91 | only the count filter changes |
| Dto.ItemCriteria.HashCode | src/main/java/com/store/service/dto/ItemCriteria.java:111-120 | the hash is an `int` |
| Dto.ItemCriteriaEquality | src/main/java/com/store/service/dto/ItemCriteria.java:94-120 | `equals` is field-wise equality, an equivalence, and agrees with `hashCode` |
| Dto.OrderCriteria.constructor | src/main/java/com/store/service/dto/OrderCriteria.java:35-36 | no filter is set |
| Dto.OrderCriteria.From | src/main/java/com/store/service/dto/OrderCriteria.java:38-44 | the copy constructor copies every filter |
| Dto.OrderCriteria.Copy | src/main/java/com/store/service/dto/OrderCriteria.java:46-48 | `copy()` is a new object equal to the original, both ways |
| Dto.OrderCriteria.SetId | src/main/java/com/store/service/dto/OrderCriteria.java:54-56 | only the id filter changes |
| Dto.OrderCriteria.SetQuantity | src/main/java/com/store/service/dto/OrderCriteria.java:62-64 | only the quantity filter changes |
| Dto.OrderCriteria.SetCartId | src/main/java/com/store/service/dto/OrderCriteria.java:70-72 | only the cart-id filter changes |
| Dto.OrderCriteria.SetItemId | src/main/java/com/store/service/dto/OrderCriteria.java:78-80 | only the item-id filter changes |
| Dto.OrderCriteria.HashCode | src/main/java/com/store/service/dto/OrderCriteria.java:99-107 | the hash is an `int` |
| Dto.OrderCriteriaEquality | src/main/java/com/store/service/dto/OrderCriteria.java:83-107 | `equals` is field-wise equality, an equivalence, and agrees with `hashCode` |
| Dto.CartIdAndItemIdFilters | src/main/java/com/store/service/dto/OrderCriteria.java:31-33 | `cartId.equals=x` selects exactly the orders whose cart has id x, and `itemId.equals=x` those whose item has id x |
| Dto.QuantityBounds | src/main/java/com/store/service/dto/OrderCriteria.java:29 | the quantity bounds are inclusive below and strict above; a null quantity fails them |
| Dto.OrderDTO.constructor | src/main/java/com/store/service/dto/OrderDTO.java:11-22 | a new DTO has every field null |
| Dto.OrderDTO.SetId | src/main/java/com/store/service/dto/OrderDTO.java:28-30 | only the id changes |
| Dto.OrderDTO.SetQuantity | src/main/java/com/store/service/dto/OrderDTO.java:36-38 | only the quantity changes |
| Dto.OrderDTO.SetCartId | src/main/java/com/store/service/dto/OrderDTO.java:44-46 | only the cart id changes |
| Dto.OrderDTO.SetItemId | src/main/java/com/store/service/dto/OrderDTO.java:52-54 | only the item id changes |
| Dto.OrderDTO.SetItemTitle | src/main/java/com/store/service/dto/OrderDTO.java:60-62 | only the item title changes |
| Dto.OrderDTO.HashCode | src/main/java/com/store/service/dto/OrderDTO.java:80-83 | the hash is an `int`, and 0 for a null id |
| Dto.OrderDTOEquality | src/main/java/com/store/service/dto/OrderDTO.java:64-83 | DTO equality is reflexive and symmetric; two distinct DTOs are never equal when either id is null, and equal ids make equal DTOs; equal DTOs hash alike |
| Paging.PageOf | src/main/java/com/store/service/CartQueryService.java:64-69 | a page is the slice of the result at `page * size`, at most `size` rows; its total is the whole result's length |
| Paging.EveryRowOnItsPage | src/main/java/com/store/service/CartQueryService.java:64-69 | row j of the result is row `j mod size` of page `j / size` |
| CartQuery.CreateSpecification | src/main/java/com/store/service/CartQueryService.java:86-101 | a null criteria object gives the empty conjunction; there are at most three conjuncts, one for each of the three filters |
| CartQuery.SatisfiesEvery | src/main/java/com/store/service/CartQueryService.java:87-99 | the chain of `and`s holds iff every conjunct holds |
| CartQuery.MatchesEveryPresentFilter | src/main/java/com/store/service/CartQueryService.java:86-101 | a cart matches iff each present filter holds: id, email, and some order id through the left join; absent filters and a null criteria object impose nothing |
| CartQuery.FindAll | src/main/java/com/store/service/CartQueryService.java:54 | the result is exactly the table's carts that satisfy the specification |
| CartQuery.Count | src/main/java/com/store/service/CartQueryService.java:80 | the count never exceeds the table size |
| CartQuery.CountIsSizeOfFindAll | src/main/java/com/store/service/CartQueryService.java:51-81 | the count equals the length of the list for the same specification |
| CartQuery.FindByCriteria | src/main/java/com/store/service/CartQueryService.java:51-55 | the list holds exactly the matching carts of the table |
| CartQuery.CountByCriteria | src/main/java/com/store/service/CartQueryService.java:77-81 | the count equals the size of the list for the same criteria |
| CartQuery.FindPageByCriteria | src/main/java/com/store/service/CartQueryService.java:64-69 | every row of a page matches, and the page's total is the count |
| CartQuery.NullCriteriaFindsAll | src/main/java/com/store/service/CartQueryService.java:86-88 | a null criteria object finds every cart in table order, and counts them all |
| CartQuery.CountMonotone | src/main/java/com/store/service/CartQueryService.java:77-81 | a stronger specification never counts more |
| CartQuery.AddingFiltersNarrows | src/main/java/com/store/service/CartQueryService.java:86-101 | adding filters keeps or shrinks both the list and the count |
| CartQuery.EmailFilterOperators | src/main/java/com/store/service/CartQueryService.java:92-93 | email `equals`, `in` and `specified` select what the resource tests expect |
| CartQuery.OrderIdFilter | src/main/java/com/store/service/CartQueryService.java:95-97 | `orderId.equals=x` finds exactly the carts holding an order with id x |
| ItemQuery.CreateSpecification | src/main/java/com/store/service/ItemQueryService.java:86-106 | a null criteria object gives the empty conjunction; there are at most five conjuncts, one for each of the five filters |
| ItemQuery.SatisfiesEvery | src/main/java/com/store/service/ItemQueryService.java:87-104 | the chain of `and`s holds iff every conjunct holds |
| ItemQuery.MatchesEveryPresentFilter | src/main/java/com/store/service/ItemQueryService.java:86-106 | an item matches iff each present filter holds: id, title, description, price range and count range |
| ItemQuery.FindAll | src/main/java/com/store/service/ItemQueryService.java:54 | the result is exactly the table's items that satisfy the specification |
| ItemQuery.Count | src/main/java/com/store/service/ItemQueryService.java:80 | the count never exceeds the table size |
| ItemQuery.CountIsSizeOfFindAll | src/main/java/com/store/service/ItemQueryService.java:51-81 | the count equals the length of the list for the same specification |
| ItemQuery.FindByCriteria | src/main/java/com/store/service/ItemQueryService.java:51-55 | the list holds exactly the matching items of the table |
| ItemQuery.CountByCriteria | src/main/java/com/store/service/ItemQueryService.java:77-81 | the count equals the size of the list for the same criteria |
| ItemQuery.FindPageByCriteria | src/main/java/com/store/service/ItemQueryService.java:64-69 | every row of a page matches, and the page's total is the count |
| ItemQuery.NullCriteriaFindsAll | src/main/java/com/store/service/ItemQueryService.java:86-88 | a null criteria object finds every item in table order, and counts them all |
| ItemQuery.CountMonotone | src/main/java/com/store/service/ItemQueryService.java:77-81 | a stronger specification never counts more |
| ItemQuery.AddingFiltersNarrows | src/main/java/com/store/service/ItemQueryService.java:86-106 | adding filters keeps or shrinks both the list and the count |
| ItemQuery.CountBounds | src/main/java/com/store/service/ItemQueryService.java:101-103 | count bounds are inclusive below and strict above, and a null count fails them |
| OrderMapper.FromId | src/main/java/com/store/service/mapper/OrderMapper.java:23-30 | a null id gives null; otherwise a new order that carries only that id |
| OrderMapper.CartFromId | src/test/java/com/store/web/rest/CartResourceIT.java:480-482 | a cart id becomes a new cart that carries only that id, or null |
| OrderMapper.ItemFromId | src/main/java/com/store/service/mapper/OrderMapper.java:11 | an item id becomes a new item that carries only that id, or null |
| OrderMapper.ToDto | src/main/java/com/store/service/mapper/OrderMapper.java:14-17 | id and quantity are copied; cart id, item id and item title are read through the references, null-safely; the DTO meets its quantity constraint iff the order's quantity is at least 1, so a valid order gives a valid DTO |
| OrderMapper.ToEntity | src/main/java/com/store/service/mapper/OrderMapper.java:19-21 | id and quantity are copied; the cart and item ids become reference objects; the order is valid iff the DTO is valid and carries both ids |
| OrderMapper.RoundTrip | src/main/java/com/store/service/mapper/OrderMapper.java:14-21 | from DTO to entity and back keeps id, quantity, cart id and item id, and validity, and loses the item title |
| CartService.DemandOfUnorderedItem | src/main/java/com/store/service/impl/CartServiceImpl.java:74-78 | orders for other items ask nothing of an item |
| CartService.DemandAlongEnumeration | src/main/java/com/store/service/impl/CartServiceImpl.java:74 | summing quantities in any visiting order of the order set gives the same demand |
| CartService.ReplayLowers | src/main/java/com/store/service/impl/CartServiceImpl.java:74-78 | after the loop has visited some orders, each count is its old value less those orders' demand for the item, wrapped to an `int` |
| CartService.BatchAlong | src/main/java/com/store/service/impl/CartServiceImpl.java:76-79 | the items met in the loop form the batch: one entry per order, naming exactly the ordered items |
| CartService.LowerStock | src/main/java/com/store/service/impl/CartServiceImpl.java:74-79 | every count becomes its old value less the cart's demand for that item, wrapped to an `int`; all counts stay `int`s; the batch has one entry per order and names exactly the ordered items |
| CartService.CartService.constructor | src/main/java/com/store/service/impl/CartServiceImpl.java:41-46 | the service starts with an empty cart table, the given stock and no events |
| CartService.CartService.Store | src/main/java/com/store/service/impl/CartServiceImpl.java:59 | a cart without an id gets a fresh one from the sequence, an existing id is kept, the table maps the id to the cart, and stock is untouched |
| CartService.CartService.Close | src/main/java/com/store/service/impl/CartServiceImpl.java:70-86 | a closed cart: nothing changes. An open cart: stock is lowered by the cart's demand, then one batch of the ordered items is saved, then the cart is dated today and stored, then exactly one ticket is sent |
| CartService.CartService.Save | src/main/java/com/store/service/impl/CartServiceImpl.java:55-61 | without a close date it closes the cart as `Close` does; with one it stores the cart with its orders, email, close date and any existing id unchanged, with no stock change and no ticket |
| CartService.CartService.Delete | src/main/java/com/store/service/impl/CartServiceImpl.java:123-126 | the id leaves the table, which shrinks by one iff the id was there; stock and log are unchanged |
| CartService.CloseTwice | src/main/java/com/store/service/impl/CartServiceImpl.java:73-83 | a second close of the same cart changes nothing: stock is lowered once, the date stays the first one, and one ticket is sent |
| CartService.UnorderedItemKeepsCount | src/main/java/com/store/service/impl/CartServiceImpl.java:74-78 | an item no order of the cart is for keeps its count |
| CartService.ExactDecrement | src/main/java/com/store/service/impl/CartServiceImpl.java:77 | when the difference fits an `int`, the new count is exactly old minus demand, negative if stock ran short |
| Home.FindByItemId | src/main/webapp/app/modules/home/home.tsx:67 | the index found is the first order for the item; none is found iff no order is for it |
| Home.AddedUpserts | src/main/webapp/app/modules/home/home.tsx:93-98 | adding grows the cart by one iff the item was absent; afterwards one order for the item has the pending quantity; other orders are unchanged; one order per item is kept |
| Home.AddAliasedIsNoChange | src/main/webapp/app/modules/home/home.tsx:93-97 | adding the cart's own entry leaves the cart as it was |
| Home.AliasedCheckDoubles | src/main/webapp/app/modules/home/home.tsx:102-107 | when the pending order is the cart's entry, the check passes iff quantity >= 0 and count >= twice the quantity |
| Home.FreshCheck | src/main/webapp/app/modules/home/home.tsx:102-107 | for an item not yet in the cart, the check passes iff quantity >= 0 and count >= quantity |
| Home.Home.PendingOrder | src/main/webapp/app/modules/home/home.tsx:63-88 | looking up the pending order's item in the cart finds the pending order's own position when it is aliased, and nothing when it is fresh |
| Home.Home.constructor | src/main/webapp/app/modules/home/home.tsx:48-54 | the dialog is closed, nothing is selected, the cart is empty and there is no pending order |
| Home.Home.Toggle | src/main/webapp/app/modules/home/home.tsx:63-81 | flips the dialog and selects the argument. For an item, the pending order is for that item; it is the cart's entry iff the cart has an order for the item, else a fresh order with quantity 0. Without an item there is no pending order |
| Home.Home.HandleOrderQuantityChange | src/main/webapp/app/modules/home/home.tsx:83-88 | the pending order's quantity becomes the new value. An aliased pending order changes the cart entry at once; a fresh one leaves the cart alone |
| Home.Home.AddToCart | src/main/webapp/app/modules/home/home.tsx:90-100 | the cart becomes the upsert of the pending order by item id, one order per item is kept, and the dialog is closed with no pending order |
| Home.Home.CanAddToCart | src/main/webapp/app/modules/home/home.tsx:102-107 | `canAddToCart` returning true means a non-negative quantity, a selected item, and stock at least the pending quantity |
| Home.AliasedDialogNeedsDouble | src/main/webapp/app/modules/home/home.tsx:63-107 | with the dialog open on an item already in the cart, `canAddToCart` returns true iff the quantity is not negative and stock covers twice the quantity |
| Home.AliasedCheckRefusesFittingQuantity | src/main/webapp/app/modules/home/home.tsx:105-106 | with 3 in the cart and 5 in stock, keeping 3 makes `canAddToCart` return false, although adding would leave 3 |
| Home.FitsStockMeansAddedFits | src/main/webapp/app/modules/home/home.tsx:93-106 | the corrected check passes iff the cart's quantity for the item after adding is between 0 and the stock |

## Left out

- CartService.LowerStock: counts live in a map from item id to count, not in the fields of the `Item` objects. `close` updating each `Item` in place is therefore not modelled, nor two orders reaching the same item through different objects. The saved batch is still a sequence of the item objects.
- CartService.CartService.Close: a null order item, a null quantity, or an item missing from the stock table is excluded by a precondition (`Closable`). In Java these paths throw a `NullPointerException` part-way through the loop.
- CartService.CartService.Close: `cartMapper.toEntity` and `toDto` around `close` are not modelled; the workflow runs on the cart entity. Of CartMapper and ItemMapper only `fromId` is modelled (`OrderMapper.CartFromId`, `OrderMapper.ItemFromId`), following the generated pattern and the behaviour `testEntityFromId` checks (CartResourceIT.java:480-482); their other methods and the cart and item DTOs are not part of this model.
- CartService.CartService.Delete: deleting an id that is not in the table returns `found = false` and changes nothing. Depending on the Spring Data version, the repository may throw instead.
- Transactions, rollback, concurrent closes of one cart, and second-level caching are not modelled (framework behaviour).
- `findAll` and `findOne` of the cart service pass straight through to the repository and mapper; they are not modelled.
- Filters.Holds: only the `equals`, `in` and `specified` operators and the two bounds used by the tests are modelled. `StringFilter.contains` and the other range bounds are not. The JHipster `QueryService` is not part of this model, so these semantics follow its documented behaviour.
- The `LEFT JOIN` behind the cart's `orderId` filter can return a cart once per matching order. The model returns each cart once.
- Sorting of query results, and the `sort` part of a page request, are not modelled; results keep table order.
- Prices are `Double` in Java and `real` here; rounding is not modelled.
- The database's unique constraint on item titles is not modelled.
- `Dto.OrderMatches` follows the same generated pattern as the cart and item query services. The order query service that would apply it is not part of this model.
- Filter classes' own `hashCode` is a parameter of the criteria hash functions. Getters and `toString` are not modelled.
- Bean-validation annotations become `IsValid` predicates. When the framework enforces them is not modelled.
- Home.Home.HandleOrderQuantityChange: the input's value is taken as an integer. The string-to-number coercion of the browser event, including `+` concatenating two strings in `canAddToCart`, is not modelled.
- Rendering, infinite scroll, sorting and the reducers of the page are not modelled.
- The quantity input's `min="0"` and `max` (the selected item's count) are not modelled. They are the only guard the page applies before `addToCart`, and the form submits straight to `addToCart` without calling `canAddToCart`. `Home.FitsStock` states the same range.
- CartQuery.ConditionHolds: only the `equals`, `in` and `specified` operators of the cart's `orderId` filter are modelled. Bounds on that filter are not.

## Findings

| source | as written | input that shows it | evidently intended | confidence | as-written member | corrected member |
|---|---|---|---|---|---|---|
| src/main/webapp/app/modules/home/home.tsx:105-106 | when the dialog is open on an item already in the cart, the pending order is the cart's own entry. `canAddToCart` adds that entry's quantity to itself and checks the stock against twice the quantity. `addToCart` then overwrites the cart quantity rather than adding to it. The page binds `canAddToCart` (home.tsx:58) but never calls it, so the defect is latent | a cart with 3 of an item that has 5 in stock; reopen the dialog and keep 3: `canAddToCart` computes 5 >= 6 and returns false | the check compares the stock with the quantity the cart will hold after adding | medium, not executed | Home.AliasedCheckRefusesFittingQuantity | Home.FitsStockMeansAddedFits |
