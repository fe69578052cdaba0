/** The item list of the new-sale dialog (components/sales/sale-create-dialog.tsx):
    a cart over a fixed catalogue that merges repeated products and never exceeds stock.
    Prices are integer cents. */
module SaleCart {
  import opened Wrappers

  datatype Product = Product(id: string, name: string, priceCents: nat, stock: nat)
  datatype Item = Item(productId: string, quantity: int)

  const Catalogue: seq<Product> := [
    Product("1", "Laptop HP", 79999, 15),
    Product("2", "Monitor Dell", 19999, 25),
    Product("3", "Teclado Logitech", 4999, 30),
    Product("4", "Mouse Logitech", 2999, 40),
    Product("5", "Impresora HP", 14999, 10)
  ]

  /** `availableProducts.find((p) => p.id === id)`. */
  function FindProduct(id: string): (r: Option<Product>)
    ensures r.Some? ==> r.value in Catalogue && r.value.id == id
    ensures r.None? <==> forall k :: 0 <= k < |Catalogue| ==> Catalogue[k].id != id
  {
    if id == "1" then Some(Catalogue[0])
    else if id == "2" then Some(Catalogue[1])
    else if id == "3" then Some(Catalogue[2])
    else if id == "4" then Some(Catalogue[3])
    else if id == "5" then Some(Catalogue[4])
    else None
  }

  /** `items.findIndex((item) => item.productId === id)`, -1 when absent. */
  function FindIndex(items: seq<Item>, id: string): (r: int)
    ensures -1 <= r < |items|
    ensures r == -1 <==> forall k :: 0 <= k < |items| ==> items[k].productId != id
    ensures r >= 0 ==> items[r].productId == id && forall k :: 0 <= k < r ==> items[k].productId != id
  {
    if items == [] then -1
    else if items[0].productId == id then 0
    else
      var k := FindIndex(items[1..], id);
      if k == -1 then -1 else k + 1
  }

  /** The cart invariant: every line names a catalogue product, once, with a quantity in
      1..stock. */
  predicate CartValid(items: seq<Item>) {
    && (forall k :: 0 <= k < |items| ==>
          FindProduct(items[k].productId).Some? && 1 <= items[k].quantity <= FindProduct(items[k].productId).value.stock)
    && (forall j, k :: 0 <= j < k < |items| ==> items[j].productId != items[k].productId)
  }

  /** Why an add is refused; every refusal leaves the cart as it was. */
  datatype Refusal = NothingSelected | NonPositiveQuantity | NotInCatalogue | OverStock(stock: nat)

  /** `addItem()` on the cart `items` with the current selection and quantity. */
  function AddToCart(items: seq<Item>, selected: string, quantity: int): (r: Result<seq<Item>, Refusal>)
    ensures selected == "" ==> r == Err(NothingSelected)
    ensures selected != "" && quantity <= 0 ==> r == Err(NonPositiveQuantity)
    ensures selected != "" && quantity > 0 && FindProduct(selected).None? ==> r == Err(NotInCatalogue)
    ensures selected != "" && quantity > 0 && FindProduct(selected).Some? && quantity > FindProduct(selected).value.stock ==>
              r == Err(OverStock(FindProduct(selected).value.stock))
    ensures r.Ok? && FindIndex(items, selected) == -1 ==> r.value == items + [Item(selected, quantity)]
    ensures r.Ok? && FindIndex(items, selected) >= 0 ==>
              var k := FindIndex(items, selected);
              r.value == items[k := Item(selected, items[k].quantity + quantity)]
    ensures selected != "" && quantity > 0 && FindProduct(selected).Some? && FindIndex(items, selected) >= 0 &&
            quantity <= FindProduct(selected).value.stock &&
            items[FindIndex(items, selected)].quantity + quantity > FindProduct(selected).value.stock ==>
              r == Err(OverStock(FindProduct(selected).value.stock))
    ensures selected != "" && quantity > 0 && FindProduct(selected).Some? && quantity <= FindProduct(selected).value.stock &&
            (FindIndex(items, selected) == -1 ||
             items[FindIndex(items, selected)].quantity + quantity <= FindProduct(selected).value.stock) ==>
              r.Ok?
    ensures r.Ok? ==> quantity > 0 && FindProduct(selected).Some? &&
                      (FindIndex(items, selected) == -1 || items[FindIndex(items, selected)].quantity + quantity <= FindProduct(selected).value.stock)
  {
    if selected == "" then Err(NothingSelected)
    else if quantity <= 0 then Err(NonPositiveQuantity)
    else match FindProduct(selected)
      case None => Err(NotInCatalogue)
      case Some(product) =>
        if quantity > product.stock then Err(OverStock(product.stock))
        else
          var k := FindIndex(items, selected);
          if k >= 0 then
            var merged := items[k].quantity + quantity;
            if merged > product.stock then Err(OverStock(product.stock))
            else Ok(items[k := Item(selected, merged)])
          else Ok(items + [Item(selected, quantity)])
  }

  /** A product already in the cart is merged: the length stays and only its quantity grows. */
  lemma AddMerges(items: seq<Item>, selected: string, quantity: int)
    requires CartValid(items)
    requires AddToCart(items, selected, quantity).Ok? && FindIndex(items, selected) >= 0
    ensures var r := AddToCart(items, selected, quantity).value;
            |r| == |items| &&
            forall k :: 0 <= k < |items| ==>
              r[k] == (if items[k].productId == selected then Item(selected, items[k].quantity + quantity) else items[k])
  {
    var i := FindIndex(items, selected);
    forall k | 0 <= k < |items| && items[k].productId == selected ensures k == i {
      if k < i {
        assert false;
      } else if k > i {
        assert false;
      }
    }
  }

  /** Adding keeps the cart invariant. */
  lemma {:induction false} AddKeepsValid(items: seq<Item>, selected: string, quantity: int)
    requires CartValid(items) && AddToCart(items, selected, quantity).Ok?
    ensures CartValid(AddToCart(items, selected, quantity).value)
  {
    var r := AddToCart(items, selected, quantity).value;
    var k := FindIndex(items, selected);
    if k >= 0 {
      forall j | 0 <= j < |r|
        ensures FindProduct(r[j].productId).Some? && 1 <= r[j].quantity <= FindProduct(r[j].productId).value.stock
      {
        if j != k {
          assert r[j] == items[j];
        }
      }
      forall i, j | 0 <= i < j < |r| ensures r[i].productId != r[j].productId {
        assert r[i].productId == items[i].productId && r[j].productId == items[j].productId;
      }
    } else {
      forall i, j | 0 <= i < j < |r| ensures r[i].productId != r[j].productId {
        if j == |items| {
          assert r[i] == items[i];
        } else {
          assert r[i] == items[i] && r[j] == items[j];
        }
      }
    }
  }

  /** `items.filter((_, i) => i !== index)`. */
  function RemoveAt(items: seq<Item>, index: int): (r: seq<Item>)
    ensures 0 <= index < |items| ==> |r| == |items| - 1
    ensures 0 <= index < |items| ==> forall k :: 0 <= k < |r| ==> r[k] == items[if k < index then k else k + 1]
    ensures !(0 <= index < |items|) ==> r == items
  {
    if 0 <= index < |items| then items[..index] + items[index + 1..] else items
  }

  /** Removing a line keeps the cart invariant. */
  lemma RemoveKeepsValid(items: seq<Item>, index: int)
    requires CartValid(items)
    ensures CartValid(RemoveAt(items, index))
  {
    var r := RemoveAt(items, index);
    if 0 <= index < |items| {
      forall i, j | 0 <= i < j < |r| ensures r[i].productId != r[j].productId {
        var i' := if i < index then i else i + 1;
        var j' := if j < index then j else j + 1;
        assert r[i] == items[i'] && r[j] == items[j'] && i' < j';
      }
    }
  }

  /** The amount of one line in cents; a line whose product is unknown counts 0. */
  function LineTotal(item: Item): int {
    match FindProduct(item.productId)
    case None => 0
    case Some(p) => p.priceCents * item.quantity
  }

  /** `calculateTotal()`, in cents. */
  function Total(items: seq<Item>): int {
    if items == [] then 0 else Total(items[..|items| - 1]) + LineTotal(items[|items| - 1])
  }

  /** With no negative quantity the total is never negative. */
  lemma {:induction false} TotalNonNegative(items: seq<Item>)
    requires forall k :: 0 <= k < |items| ==> items[k].quantity >= 0
    ensures Total(items) >= 0
  {
    if items != [] {
      var front := items[..|items| - 1];
      assert forall k :: 0 <= k < |front| ==> front[k] == items[k];
      TotalNonNegative(front);
    }
  }

  /** The total is additive over concatenation. */
  lemma {:induction false} TotalAppend(a: seq<Item>, b: seq<Item>)
    ensures Total(a + b) == Total(a) + Total(b)
    decreases |b|
  {
    if b == [] {
      assert a + b == a;
    } else {
      var b' := b[..|b| - 1];
      assert (a + b)[..|a + b| - 1] == a + b';
      TotalAppend(a, b');
    }
  }

  lemma TotalSingle(item: Item)
    ensures Total([item]) == LineTotal(item)
  {
    assert [item][..0] == [];
  }

  /** A successful add raises the total by exactly price · quantity of the chosen product. */
  lemma {:induction false} AddRaisesTotal(items: seq<Item>, selected: string, quantity: int)
    requires AddToCart(items, selected, quantity).Ok?
    ensures Total(AddToCart(items, selected, quantity).value) ==
              Total(items) + FindProduct(selected).value.priceCents * quantity
  {
    var k := FindIndex(items, selected);
    if k >= 0 {
      var line := Item(selected, items[k].quantity + quantity);
      TotalUpdate(items, k, line);
    } else {
      TotalAppend(items, [Item(selected, quantity)]);
      TotalSingle(Item(selected, quantity));
    }
  }

  /** Replacing one line changes the total by the difference of the two line amounts. */
  lemma TotalUpdate(items: seq<Item>, index: int, line: Item)
    requires 0 <= index < |items|
    ensures Total(items[index := line]) == Total(items) - LineTotal(items[index]) + LineTotal(line)
  {
    var r := items[index := line];
    assert r[..index] == items[..index];
    assert r[index + 1..] == items[index + 1..];
    TotalAround(items, index);
    TotalAround(r, index);
  }

  /** Removing a line lowers the total by that line's amount. */
  lemma RemoveLowersTotal(items: seq<Item>, index: int)
    requires 0 <= index < |items|
    ensures Total(RemoveAt(items, index)) == Total(items) - LineTotal(items[index])
  {
    TotalAround(items, index);
    TotalAppend(items[..index], items[index + 1..]);
  }

  /** The total splits around any line. */
  lemma TotalAround(items: seq<Item>, index: int)
    requires 0 <= index < |items|
    ensures Total(items) == Total(items[..index]) + LineTotal(items[index]) + Total(items[index + 1..])
  {
    var front, line, back := items[..index], [items[index]], items[index + 1..];
    assert items == front + line + back;
    TotalAppend(front + line, back);
    TotalAppend(front, line);
    TotalSingle(items[index]);
  }

  /** The quantity input's `Number.parseInt(value) || 1`: NaN and 0 become 1; `parsed` is
      None when the text is not a number. */
  function QuantityInput(parsed: Option<int>): (q: int)
    ensures q != 0
    ensures parsed.Some? && parsed.value != 0 ==> q == parsed.value
    ensures parsed.None? || parsed == Some(0) ==> q == 1
  {
    if parsed.None? || parsed.value == 0 then 1 else parsed.value
  }

  /** `saleCreateSchema`: a customer of at least 2 characters and at least one line, each
      with a nonempty product id and a positive integer quantity. */
  predicate SaleFormValid(customer: string, items: seq<Item>) {
    |customer| >= 2 && |items| >= 1 &&
    forall k :: 0 <= k < |items| ==> items[k].productId != "" && items[k].quantity > 0
  }

  /** A cart that keeps its invariant satisfies the item part of the schema, so once the
      cart is written into the form, the schema asks only for the customer. */
  lemma ValidCartPassesSchema(customer: string, items: seq<Item>)
    requires CartValid(items) && |customer| >= 2 && |items| >= 1
    ensures SaleFormValid(customer, items)
  {
    forall k | 0 <= k < |items| ensures items[k].productId != "" {
      assert FindProduct(items[k].productId).value.id == items[k].productId;
    }
  }

  /** What the user can do in the dialog before pressing the submit button. */
  datatype CartAction =
    | CustomerTyped(text: string)
    | ProductChosen(id: string)
    | QuantityTyped(parsed: Option<int>)
    | AddClicked
    | RemoveClicked(index: int)

  /** The dialog: the cart and its pickers, which are component state, and the form's own
      values, which are what the schema checks. The form's `items` is not the cart: it
      starts at the default `[]`, and no handler of the dialog writes it. */
  class Cart {
    var items: seq<Item>
    var selectedProduct: string
    var quantity: int
    var isLoading: bool
    /** The registered customer input. */
    var customer: string
    /** The form's `items`. */
    var formItems: seq<Item>
    /** How many times the parent's `onOpenChange(false)` was called. */
    var closings: nat

    ghost predicate Valid()
      reads this
    {
      CartValid(items)
    }

    constructor ()
      ensures Valid() && items == [] && selectedProduct == "" && quantity == 1 && !isLoading
      ensures customer == "" && formItems == [] && closings == 0
    {
      items := [];
      selectedProduct := "";
      quantity := 1;
      isLoading := false;
      customer := "";
      formItems := [];
      closings := 0;
    }

    /** `addItem()`: on success the cart takes the new lines and the selection resets to
        "" and 1; on a refusal nothing changes. */
    method AddItem() returns (r: Result<(), Refusal>)
      requires Valid()
      modifies this
      ensures Valid() && isLoading == old(isLoading)
      ensures customer == old(customer) && formItems == old(formItems) && closings == old(closings)
      ensures AddToCart(old(items), old(selectedProduct), old(quantity)).Ok? ==>
                r.Ok? && items == AddToCart(old(items), old(selectedProduct), old(quantity)).value &&
                selectedProduct == "" && quantity == 1
      ensures AddToCart(old(items), old(selectedProduct), old(quantity)).Err? ==>
                r.Err? && items == old(items) && selectedProduct == old(selectedProduct) && quantity == old(quantity)
    {
      var next := AddToCart(items, selectedProduct, quantity);
      if next.Err? {
        return Err(next.error);
      }
      AddKeepsValid(items, selectedProduct, quantity);
      items := next.value;
      selectedProduct := "";
      quantity := 1;
      r := Ok(());
    }

    /** `removeItem(index)`. */
    method RemoveItem(index: int)
      requires Valid()
      modifies this
      ensures Valid() && items == RemoveAt(old(items), index)
      ensures selectedProduct == old(selectedProduct) && quantity == old(quantity) && isLoading == old(isLoading)
      ensures customer == old(customer) && formItems == old(formItems) && closings == old(closings)
    {
      RemoveKeepsValid(items, index);
      items := RemoveAt(items, index);
    }

    /** The quantity input's change handler. */
    method SetQuantity(parsed: Option<int>)
      modifies this
      ensures quantity == QuantityInput(parsed) && items == old(items)
      ensures selectedProduct == old(selectedProduct) && isLoading == old(isLoading)
      ensures customer == old(customer) && formItems == old(formItems) && closings == old(closings)
    {
      quantity := QuantityInput(parsed);
    }

    /** Typing into the registered customer input. */
    method TypeCustomer(text: string)
      modifies this
      ensures customer == text && items == old(items) && formItems == old(formItems)
      ensures selectedProduct == old(selectedProduct) && quantity == old(quantity)
      ensures isLoading == old(isLoading) && closings == old(closings)
    {
      customer := text;
    }

    /** The product select's `onValueChange={setSelectedProduct}`. */
    method ChooseProduct(id: string)
      modifies this
      ensures selectedProduct == id && items == old(items) && formItems == old(formItems)
      ensures customer == old(customer) && quantity == old(quantity)
      ensures isLoading == old(isLoading) && closings == old(closings)
    {
      selectedProduct := id;
    }

    /** `addItem()` followed by writing the cart into the form's `items`, as the schema
        evidently expects. */
    method AddItemIntended() returns (r: Result<(), Refusal>)
      requires Valid()
      modifies this
      ensures Valid() && isLoading == old(isLoading) && formItems == items
      ensures customer == old(customer) && closings == old(closings)
      ensures AddToCart(old(items), old(selectedProduct), old(quantity)).Ok? ==>
                r.Ok? && items == AddToCart(old(items), old(selectedProduct), old(quantity)).value
      ensures AddToCart(old(items), old(selectedProduct), old(quantity)).Err? ==> r.Err? && items == old(items)
    {
      r := AddItem();
      formItems := items;
    }

    /** `removeItem(index)` followed by writing the cart into the form's `items`. */
    method RemoveItemIntended(index: int)
      requires Valid()
      modifies this
      ensures Valid() && items == RemoveAt(old(items), index) && formItems == items
      ensures selectedProduct == old(selectedProduct) && quantity == old(quantity) && isLoading == old(isLoading)
      ensures customer == old(customer) && closings == old(closings)
    {
      RemoveItem(index);
      formItems := items;
    }

    /** `handleSubmit(onSubmit)`: values the schema refuses never reach `onSubmit`; a sale
        that passes empties the form (`reset()`) and the cart and closes the dialog. The
        schema reads the form's values, not the cart. */
    method Submit() returns (submitted: bool)
      requires Valid()
      modifies this
      ensures submitted <==> SaleFormValid(old(customer), old(formItems))
      ensures !submitted ==> unchanged(this)
      ensures submitted ==> items == [] && customer == "" && formItems == [] && closings == old(closings) + 1
      ensures submitted ==> !isLoading && selectedProduct == old(selectedProduct) && quantity == old(quantity)
      ensures Valid()
    {
      if !SaleFormValid(customer, formItems) {
        return false;
      }
      isLoading := true;
      customer, formItems := "", [];
      items := [];
      closings := closings + 1;
      isLoading := false;
      submitted := true;
    }

    /** One user action, through the dialog's handlers as written. */
    method Perform(a: CartAction)
      requires Valid()
      modifies this
      ensures Valid() && formItems == old(formItems) && isLoading == old(isLoading)
    {
      match a
      case CustomerTyped(text) => TypeCustomer(text);
      case ProductChosen(id) => ChooseProduct(id);
      case QuantityTyped(parsed) => SetQuantity(parsed);
      case AddClicked => var _ := AddItem();
      case RemoveClicked(index) => RemoveItem(index);
    }

    /** One user action, with every cart change written into the form. */
    method PerformIntended(a: CartAction)
      requires Valid()
      modifies this
      ensures Valid() && isLoading == old(isLoading)
      ensures old(formItems) == old(items) ==> formItems == items
    {
      match a
      case CustomerTyped(text) => TypeCustomer(text);
      case ProductChosen(id) => ChooseProduct(id);
      case QuantityTyped(parsed) => SetQuantity(parsed);
      case AddClicked => var _ := AddItemIntended();
      case RemoveClicked(index) => RemoveItemIntended(index);
    }

    /** The submit button: disabled while saving or while the cart is empty. */
    predicate SubmitEnabled()
      reads this
    {
      !isLoading && |items| > 0
    }
  }

  /** The dialog as written: after any run of actions the button is enabled exactly when the
      cart has lines, yet the submit is always refused, since the form's `items` stays `[]`. */
  method FillThenSubmit(actions: seq<CartAction>) returns (lines: seq<Item>, enabled: bool, submitted: bool)
    ensures enabled <==> |lines| > 0
    ensures !submitted
  {
    var dialog := new Cart();
    for i := 0 to |actions|
      invariant dialog.Valid() && dialog.formItems == [] && !dialog.isLoading
    {
      dialog.Perform(actions[i]);
    }
    lines := dialog.items;
    enabled := dialog.SubmitEnabled();
    submitted := dialog.Submit();
  }

  /** The same dialog with the cart written into the form: a submit goes through exactly
      when the button is enabled and the customer has at least two characters. */
  method FillThenSubmitIntended(actions: seq<CartAction>)
    returns (customer: string, lines: seq<Item>, enabled: bool, submitted: bool)
    ensures enabled <==> |lines| > 0
    ensures submitted <==> enabled && |customer| >= 2
  {
    var dialog := new Cart();
    for i := 0 to |actions|
      invariant dialog.Valid() && dialog.formItems == dialog.items && !dialog.isLoading
    {
      dialog.PerformIntended(actions[i]);
    }
    customer := dialog.customer;
    lines := dialog.items;
    enabled := dialog.SubmitEnabled();
    if |customer| >= 2 && |lines| >= 1 {
      ValidCartPassesSchema(customer, lines);
    }
    submitted := dialog.Submit();
  }
}
