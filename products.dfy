/**
 * The product list screen: its state fields and the handlers that update
 * them. Every backend call is replaced by the outcome it produced, passed to
 * the handler; each handler runs atomically on the current state.
 */
module Products {
  import opened Outcomes
  import opened Seqs
  import opened ProductLists

  /**
   * `selectedProduct`: `null`, the empty object `{}` that stands for a new
   * product, or the product being edited.
   */
  datatype Selection = NoSelection | NewProduct | Editing(product: Product)

  datatype ViewMode = ListView | FormView

  /** Any selection, the empty sentinel included, is truthy and shows the form. */
  function ModeOf(selection: Selection): (mode: ViewMode)
    ensures selection == NewProduct ==> mode == FormView
    ensures selection.Editing? ==> mode == FormView
    ensures selection == NoSelection ==> mode == ListView
  {
    if selection.NoSelection? then ListView else FormView
  }

  /** One page of products as the backend returns it. */
  datatype PageResult = PageResult(content: seq<Product>, totalElements: int)

  /** The signed-in principal with its authorities. */
  datatype User = User(authorities: seq<string>)

  const ReadAuthority := "Product.read"
  const CreateAuthority := "Product.create"
  const UpdateAuthority := "Product.update"
  const DeleteAuthority := "Product.delete"

  /** The signed-in user holds `authority`; false when nobody is signed in. */
  predicate HasAuthority(user: Option<User>, authority: string)
  {
    user.Some? && authority in user.value.authorities
  }

  /** The row actions of the table. */
  datatype Action = Edit | Delete

  function Label(action: Action): string
  {
    match action
    case Edit => "Editar"
    case Delete => "Eliminar"
  }

  /**
   * What the table may show for a page and a query: the whole page (after a
   * load, create, update or delete) or the page's search result (after a
   * search).
   */
  ghost predicate Consistent(products: seq<Product>, filtered: seq<Product>, query: string)
  {
    filtered == products || filtered == Search(products, query)
  }

  /** Either way the table shows page products only, in page order. */
  lemma ConsistentIsSubsequence(products: seq<Product>, filtered: seq<Product>, query: string)
    requires Consistent(products, filtered, query)
    ensures IsSubsequence(filtered, products)
    ensures |filtered| <= |products|
    ensures forall p :: p in filtered ==> p in products
  {
    if filtered == products {
      SubsequenceReflexive(products);
    } else {
      SearchExact(products, query);
    }
    SubsequenceContained(filtered, products);
  }

  /** The buttons above the table. */
  datatype ToolbarButton = Report | Create

  /**
   * The toolbar shows the report button exactly when the user may read
   * products and the create button exactly when the user may create them,
   * report first.
   */
  function ToolbarButtons(user: Option<User>): (buttons: seq<ToolbarButton>)
    ensures Report in buttons <==> HasAuthority(user, ReadAuthority)
    ensures Create in buttons <==> HasAuthority(user, CreateAuthority)
    ensures forall i, j :: 0 <= i < j < |buttons| ==> buttons[i] == Report && buttons[j] == Create
  {
    (if HasAuthority(user, ReadAuthority) then [Report] else [])
    + (if HasAuthority(user, CreateAuthority) then [Create] else [])
  }

  class ProductsComponent {
    var products: seq<Product>
    var filteredProducts: seq<Product>
    var selectedProduct: Selection
    var isModalOpen: bool
    var productToDelete: Option<Product>
    var currentPage: int
    const pageSize: nat
    var totalElements: int
    var searchQuery: string

    /** The table shows the whole page or the page's search for the current query. */
    ghost predicate Valid()
      reads this
    {
      Consistent(products, filteredProducts, searchQuery)
    }

    function Mode(): ViewMode
      reads this
    {
      ModeOf(selectedProduct)
    }

    /** The state on mount, before the first page has arrived. */
    constructor ()
      ensures Valid()
      ensures products == [] && filteredProducts == [] && totalElements == 0
      ensures selectedProduct == NoSelection && Mode() == ListView
      ensures !isModalOpen && productToDelete == None
      ensures currentPage == 0 && pageSize == 10 && searchQuery == ""
    {
      products := [];
      filteredProducts := [];
      selectedProduct := NoSelection;
      isModalOpen := false;
      productToDelete := None;
      currentPage := 0;
      pageSize := 10;
      totalElements := 0;
      searchQuery := "";
    }

    /**
     * `fetchProducts(page)`. The request for `page` (of `pageSize` items) is
     * answered by `response`. A loaded page replaces both lists and the total,
     * without re-applying the search; a failure changes nothing.
     */
    method FetchProducts(page: int, response: Outcome<PageResult>)
      requires Valid()
      modifies this`products, this`filteredProducts, this`totalElements
      ensures Valid()
      ensures response.Success? ==>
        && products == response.value.content
        && filteredProducts == response.value.content
        && totalElements == response.value.totalElements
      ensures response.Failure? ==>
        && products == old(products)
        && filteredProducts == old(filteredProducts)
        && totalElements == old(totalElements)
    {
      match response
      case Success(result) =>
        products := result.content;
        filteredProducts := result.content;
        totalElements := result.totalElements;
      case Failure =>
    }

    /**
     * `handlePageChange(newPage)` followed by the effect that watches
     * `currentPage`: the page is loaded only when the value actually changes.
     */
    method HandlePageChange(newPage: int, response: Outcome<PageResult>)
      requires Valid()
      modifies this`currentPage, this`products, this`filteredProducts, this`totalElements
      ensures Valid()
      ensures currentPage == newPage
      ensures newPage != old(currentPage) && response.Success? ==>
        && products == response.value.content
        && filteredProducts == response.value.content
        && totalElements == response.value.totalElements
      ensures newPage == old(currentPage) || response.Failure? ==>
        && products == old(products)
        && filteredProducts == old(filteredProducts)
        && totalElements == old(totalElements)
    {
      var previous := currentPage;
      currentPage := newPage;
      if newPage != previous {
        FetchProducts(newPage, response);
      }
    }

    /** The create button: enter the form with the empty "new product" sentinel. */
    method StartCreate()
      requires Valid()
      modifies this`selectedProduct
      ensures Valid()
      ensures selectedProduct == NewProduct && Mode() == FormView
    {
      selectedProduct := NewProduct;
    }

    /**
     * `handleProductCreate`: `response` is the backend's answer to saving the
     * submitted form. Both lists become the previous `products` with the
     * created product appended, so an active search filter is dropped, and
     * the form closes.
     */
    method HandleProductCreate(response: Outcome<Product>)
      requires Valid()
      modifies this`products, this`filteredProducts, this`selectedProduct
      ensures Valid()
      ensures response.Success? ==>
        && products == old(products) + [response.value]
        && filteredProducts == products
        && selectedProduct == NoSelection && Mode() == ListView
      ensures response.Failure? ==>
        && products == old(products)
        && filteredProducts == old(filteredProducts)
        && selectedProduct == old(selectedProduct)
    {
      match response
      case Success(created) =>
        products := products + [created];
        filteredProducts := products;
        selectedProduct := NoSelection;
      case Failure =>
    }

    /**
     * `handleProductUpdate(updated)`: `response` is the backend's answer to
     * updating the product with `updated.id`. Every product with that id is
     * replaced by the answer; both lists become the result and the form closes.
     */
    method HandleProductUpdate(updated: Product, response: Outcome<Product>)
      requires Valid()
      modifies this`products, this`filteredProducts, this`selectedProduct
      ensures Valid()
      ensures response.Success? ==>
        && products == ReplaceById(old(products), updated.id, response.value)
        && filteredProducts == products
        && selectedProduct == NoSelection && Mode() == ListView
      ensures response.Failure? ==>
        && products == old(products)
        && filteredProducts == old(filteredProducts)
        && selectedProduct == old(selectedProduct)
    {
      match response
      case Success(product) =>
        var updatedProducts := ReplaceById(products, updated.id, product);
        products := updatedProducts;
        filteredProducts := updatedProducts;
        selectedProduct := NoSelection;
      case Failure =>
    }

    /**
     * `handleProductDelete(productId)`: `response` is the backend's answer to
     * deleting it. Both lists become `products` without that id and the
     * selection is cleared.
     */
    method HandleProductDelete(productId: int, response: Outcome<()>)
      requires Valid()
      modifies this`products, this`filteredProducts, this`selectedProduct
      ensures Valid()
      ensures response.Success? ==>
        && products == RemoveById(old(products), productId)
        && filteredProducts == products
        && selectedProduct == NoSelection
      ensures response.Failure? ==>
        && products == old(products)
        && filteredProducts == old(filteredProducts)
        && selectedProduct == old(selectedProduct)
    {
      match response
      case Success(_) =>
        var updatedProducts := RemoveById(products, productId);
        products := updatedProducts;
        filteredProducts := updatedProducts;
        selectedProduct := NoSelection;
      case Failure =>
    }

    /** First step of a delete: remember the product and open the dialog. */
    method OpenConfirmModal(product: Product)
      requires Valid()
      modifies this`productToDelete, this`isModalOpen
      ensures Valid()
      ensures productToDelete == Some(product) && isModalOpen
    {
      productToDelete := Some(product);
      isModalOpen := true;
    }

    /**
     * Second step: delete the pending product, if there is one, and close the
     * dialog whatever happens. The pending product is not cleared.
     */
    method ConfirmDeleteProduct(response: Outcome<()>)
      requires Valid()
      modifies this`products, this`filteredProducts, this`selectedProduct, this`isModalOpen
      ensures Valid()
      ensures !isModalOpen
      ensures productToDelete.Some? && response.Success? ==>
        && products == RemoveById(old(products), productToDelete.value.id)
        && filteredProducts == products
        && selectedProduct == NoSelection
      ensures productToDelete.None? || response.Failure? ==>
        && products == old(products)
        && filteredProducts == old(filteredProducts)
        && selectedProduct == old(selectedProduct)
    {
      if productToDelete.Some? {
        HandleProductDelete(productToDelete.value.id, response);
      }
      isModalOpen := false;
    }

    /** Closing the dialog without confirming; the pending product stays recorded. */
    method CloseConfirmModal()
      requires Valid()
      modifies this`isModalOpen
      ensures Valid()
      ensures !isModalOpen
    {
      isModalOpen := false;
    }

    /**
     * `getActions()`: "Editar" exactly when the user may update products,
     * "Eliminar" exactly when the user may delete them, edit first, each at
     * most once, and nothing when nobody is signed in.
     */
    method GetActions(user: Option<User>) returns (actions: seq<Action>)
      ensures Edit in actions <==> HasAuthority(user, UpdateAuthority)
      ensures Delete in actions <==> HasAuthority(user, DeleteAuthority)
      ensures forall i, j :: 0 <= i < j < |actions| ==> actions[i] == Edit && actions[j] == Delete
      ensures user.None? ==> actions == []
      ensures (exists i :: 0 <= i < |actions| && Label(actions[i]) == "Editar") <==> HasAuthority(user, UpdateAuthority)
      ensures (exists i :: 0 <= i < |actions| && Label(actions[i]) == "Eliminar") <==> HasAuthority(user, DeleteAuthority)
    {
      actions := [];
      if HasAuthority(user, UpdateAuthority) {
        actions := actions + [Edit];
      }
      if HasAuthority(user, DeleteAuthority) {
        actions := actions + [Delete];
      }
    }

    /**
     * Clicking a row action: edit opens the form on the product; delete goes
     * through the confirmation dialog.
     */
    method RunAction(action: Action, product: Product)
      requires Valid()
      modifies this`selectedProduct, this`productToDelete, this`isModalOpen
      ensures Valid()
      ensures action == Edit ==>
        && selectedProduct == Editing(product) && Mode() == FormView
        && productToDelete == old(productToDelete) && isModalOpen == old(isModalOpen)
      ensures action == Delete ==>
        && productToDelete == Some(product) && isModalOpen
        && selectedProduct == old(selectedProduct)
    {
      match action
      case Edit =>
        selectedProduct := Editing(product);
      case Delete =>
        OpenConfirmModal(product);
    }

    /**
     * `handleSearch`: record the query and show the products of the current
     * page that match it, computed from `products` and not from the list
     * shown before.
     */
    method HandleSearch(query: string)
      requires Valid()
      modifies this`searchQuery, this`filteredProducts
      ensures Valid()
      ensures searchQuery == query
      ensures filteredProducts == Search(products, query)
    {
      searchQuery := query;
      var filtered := Search(products, query);
      filteredProducts := filtered;
    }
  }
}
