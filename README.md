# Product list screen and request interceptor, modelled in Dafny

This project models the logic of the product management screen of an
administration console (`src/components/Products/index.jsx`) and the bearer
header rule of its shared HTTP client (`src/services/axiosConfig.js`).

The screen keeps the current page of products, a filtered copy of it for the
table, the search text, the product open in the form (none, the empty `{}`
sentinel for "new", or a product being edited), a pending delete and its
confirmation dialog, the current page number and the total product count.
Its handlers are modelled as methods of the class
`Products.ProductsComponent`, whose fields are those state variables. The list
computations inside the handlers (append, `map` by id, `filter` by id, the
search filter) are functions in `ProductLists` with lemmas about them. The
class keeps the invariant that the table shows either the whole current page
or the search of that page for the current query, and so always a
subsequence of the page.

Each backend call is replaced by its outcome, passed to the handler as
`Success(value)` or `Failure`. A failure leaves the state as it was. Each
handler runs atomically on the current state.

The search lower-cases with ASCII rules (`Text.Lower`) and tests substrings
(`Text.Contains`). A missing or empty name or code never matches, as in
JavaScript, where both are falsy.

The interceptor is a method that updates the `headers` of a `RequestConfig`
object in place and returns that same object. The header map it produces is
given by `HttpClient.WithAuthorization`. The header value has the form
`Bearer <token>` of section 2.1 of RFC 6750.

Files: `outcomes.dfy` (Option, Outcome), `seqs.dfy` (order-preserving filter,
subsequences), `text.dfy` (ASCII lower-casing, substring test),
`product_lists.dfy` (products and list transformations), `products.dfy` (the
screen's state and handlers), `http_client.dfy` (the interceptor).

Behaviour of the code worth noting:

- After a create, both lists are built from the same pre-call `products` (lines 46–47), so `filteredProducts == products` afterwards and an active search filter is dropped.
- An empty search keeps only the products with a non-empty name or a non-empty code (`ProductLists.SearchEmptyQuery`).
- The table shows either the whole page or the search of the page for the current query (`Products.ProductsComponent.Valid`, `Products.Consistent`). After a load, create, update or delete it shows the whole page even when the search box still holds a query.
- Closing the dialog without confirming (line 186) only closes it. The pending product stays recorded, and confirming does not clear it either.
- A page change reloads only when the page number actually changes. The load runs in an effect that depends on `currentPage` (lines 35–37).

## Model

| member | source | states |
|---|---|---|
| `Text.Lower` | src/components/Products/index.jsx:127-128 | `toLowerCase` over ASCII: same length, each character lower-cased in place (A–Z shifted to a–z, all else kept) |
| `Text.ContainsIff` | src/components/Products/index.jsx:127-128 | `includes` holds exactly when the query occurs at some position of the text (both directions) |
| `ProductLists.Search` | src/components/Products/index.jsx:126-129 | every product the search returns is in the page and matches on a non-empty name or code |
| `ProductLists.SearchExact` | src/components/Products/index.jsx:126-129 | the search keeps every matching product as often as it occurs, no other product, in page order; unlabelled products are never found |
| `ProductLists.SearchIdempotent` | src/components/Products/index.jsx:126-130 | searching the search result again for the same query changes nothing |
| `ProductLists.SearchEmptyQuery` | src/components/Products/index.jsx:126-129 | the empty query matches exactly the products with a non-empty name or code, and returns the whole page when all have one |
| `ProductLists.SearchCaseInsensitive` | src/components/Products/index.jsx:127-128 | queries equal up to ASCII case give the same result, which is also the result for the lower-cased query |
| `ProductLists.SearchNarrows` | src/components/Products/index.jsx:126-129 | a query containing another finds an order-preserving subsequence of what the shorter one finds |
| `ProductLists.SearchExample` | src/components/Products/index.jsx:126-129 | on a widget and a gadget, "wid" finds only the widget (by name) and "G2" only the gadget (by code) |
| `ProductLists.ReplaceById` | src/components/Products/index.jsx:57-59 | the `map` by id keeps the length; each position holds the replacement if its id matched, else its old product |
| `ProductLists.ReplaceByIdEffect` | src/components/Products/index.jsx:57-59 | without a matching id the list is unchanged; with one the replacement appears, and it is the only product left with that id |
| `ProductLists.RemoveById` | src/components/Products/index.jsx:71 | no product with the removed id remains, and every remaining product was in the list |
| `ProductLists.RemoveByIdExact` | src/components/Products/index.jsx:71 | every product with another id is kept as often as it occurred, in order; a list without the id is returned unchanged |
| `Products.ModeOf` | src/components/Products/index.jsx:135 | every selection, the `{}` sentinel and an edited product alike, shows the form; only no selection shows the list |
| `Products.ConsistentIsSubsequence` | src/components/Products/index.jsx:121-130 | a table that is the whole page or its search result is an order-preserving subsequence of the page, no longer than it, holding only page products |
| `Products.ToolbarButtons` | src/components/Products/index.jsx:156-165 | the report button appears iff the user holds `Product.read`, the create button iff `Product.create`, report first |
| `Products.ProductsComponent.constructor` | src/components/Products/index.jsx:13-21 | initial state: empty lists, no selection, dialog closed, nothing pending, page 0, size 10, total 0, empty query |
| `Products.ProductsComponent.FetchProducts` | src/components/Products/index.jsx:24-33 | on success both lists equal the returned content and the total the returned total, whatever the query; on failure nothing changes |
| `Products.ProductsComponent.HandlePageChange` | src/components/Products/index.jsx:35-41 | the page number becomes the new page; the page is loaded (as above) only when the number changed |
| `Products.ProductsComponent.StartCreate` | src/components/Products/index.jsx:162 | selects the empty "new product" sentinel, which shows the form |
| `Products.ProductsComponent.HandleProductCreate` | src/components/Products/index.jsx:43-52 | on success `products` is the old list plus the created product, the filtered list equals it and the form closes; on failure nothing changes |
| `Products.ProductsComponent.HandleProductUpdate` | src/components/Products/index.jsx:54-66 | on success both lists are the old list with the submitted id replaced by the server's product and the form closes; on failure nothing changes |
| `Products.ProductsComponent.HandleProductDelete` | src/components/Products/index.jsx:68-78 | on success both lists are the old list without the id and the selection is cleared; on failure nothing changes |
| `Products.ProductsComponent.OpenConfirmModal` | src/components/Products/index.jsx:80-83 | records the pending product and opens the dialog |
| `Products.ProductsComponent.ConfirmDeleteProduct` | src/components/Products/index.jsx:85-90 | deletes the pending product's id only when one is pending, always closes the dialog, keeps the pending product |
| `Products.ProductsComponent.CloseConfirmModal` | src/components/Products/index.jsx:186 | closes the dialog and keeps the pending product |
| `Products.ProductsComponent.GetActions` | src/components/Products/index.jsx:92-109 | the edit action, labelled "Editar", iff the user holds `Product.update`; the delete action, labelled "Eliminar", iff `Product.delete`; edit first; none without a user |
| `Products.ProductsComponent.RunAction` | src/components/Products/index.jsx:96-106 | edit opens the form on the row's product; delete records it as pending and opens the dialog |
| `Products.ProductsComponent.HandleSearch` | src/components/Products/index.jsx:121-131 | records the query and sets the filtered list to the search of `products`, not of the previous filtered list |
| `HttpClient.BearerRoundTrip` | src/services/axiosConfig.js:13 | the bearer value built from a token parses back to exactly that token |
| `HttpClient.WithAuthorization` | src/services/axiosConfig.js:8-16 | with a non-empty stored token `Authorization` is `Bearer <token>`, replacing any earlier value; without one the headers are unchanged; no other header changes |
| `HttpClient.Intercept` | src/services/axiosConfig.js:8-16 | updates the given config's headers in place as above, leaves its other fields alone and returns the same object |

## Left out

- Rendering: the JSX tree, buttons, card, table, icons, the confirmation dialog's markup and `src/components/ui/input.jsx`, which only wraps an input element.
- Price formatting with `Intl.NumberFormat` and the `PYG` to `₲` substitution (line 115): locale-dependent library behaviour.
- `ProductService`, axios and the HTTP transport. Each remote call is only the outcome handed to its handler. The values a handler submits (the new product's form data, the page number and page size) go only to the backend, so they do not affect the model state. `HandleProductCreate` takes no submitted product for this reason.
- `Products.ProductsComponent.FetchProducts`: does not promise that a page holds at most `pageSize` products. That depends on the backend answering the size it was asked for.
- `localStorage.getItem`, `JSON.parse` and the console logging. The stored session is an optional `StoredUser` input whose token is a string or missing. A `JSON.parse` exception on malformed storage is not modelled.
- `HttpClient.WithAuthorization`: a stored token that is truthy but not a string (a number such as `42`) cannot be expressed. The source sends `Bearer 42` for it; the model has no such input.
- `ProductLists.Product`: `name` and `code` are strings or missing. A truthy non-string value (a numeric code, say) makes `toLowerCase` throw in the source, so the search updates `searchQuery` but not the table. That exception path is not modelled.
- React scheduling: overlapping page loads from the effect, the un-awaited delete in `confirmDeleteProduct`, and stale closures across renders. Each handler is atomic on the current state.
- `toLowerCase` beyond ASCII. Unicode case mapping is not modelled.
- The fixed `baseURL` of the client. Case-insensitive lookup of header names, which axios performs, is not modelled either: headers are a map from exact names to values.
- Cancelling the form: the form component receives `setSelectedProduct` (line 140) and may clear the selection. The form is not part of this model.
