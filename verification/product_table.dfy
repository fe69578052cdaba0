/** The products table (components/products/product-table.tsx): edit dialog and
    immediate delete. */
module ProductTable {
  import opened Wrappers
  import ListOps

  /** Prices are held in cents. */
  datatype Product = Product(id: string, name: string, description: string, priceCents: nat,
                             stock: nat, category: string, status: string)

  datatype DialogMode = View | Edit

  function IdOf(p: Product): string { p.id }

  class ProductsPage {
    var products: seq<Product>
    var selectedProduct: Option<Product>
    var isDialogOpen: bool
    var dialogMode: DialogMode

    constructor (initial: seq<Product>)
      ensures products == initial && selectedProduct == None && !isDialogOpen && dialogMode == View
    {
      products := initial;
      selectedProduct := None;
      isDialogOpen := false;
      dialogMode := View;
    }

    /** `handleEdit(product)`. */
    method HandleEdit(product: Product)
      modifies this
      ensures selectedProduct == Some(product) && dialogMode == Edit && isDialogOpen
      ensures products == old(products)
    {
      selectedProduct := Some(product);
      dialogMode := Edit;
      isDialogOpen := true;
    }

    /** `handleDelete(productId)`: the products with that id go, the rest keep their order;
        there is no confirmation and no role check. */
    method HandleDelete(productId: string)
      modifies this
      ensures products == ListOps.RemoveById(old(products), IdOf, productId)
      ensures forall p :: p in products ==> p.id != productId
      ensures forall p :: p in old(products) && p.id != productId ==> p in products
      ensures ListOps.IsSubsequence(products, old(products))
      ensures selectedProduct == old(selectedProduct) && isDialogOpen == old(isDialogOpen) && dialogMode == old(dialogMode)
    {
      ListOps.RemoveByIdOrder(products, IdOf, productId);
      products := ListOps.RemoveById(products, IdOf, productId);
    }

    /** `handleSave(updatedProduct)`: replaces the product with the same id, keeps the length
        and the other products, and always closes the dialog. */
    method HandleSave(updated: Product)
      modifies this
      ensures products == ListOps.ReplaceById(old(products), IdOf, updated)
      ensures |products| == |old(products)|
      ensures forall i :: 0 <= i < |products| ==> products[i] == (if old(products)[i].id == updated.id then updated else old(products)[i])
      ensures (forall p :: p in old(products) ==> p.id != updated.id) ==> products == old(products)
      ensures !isDialogOpen && selectedProduct == old(selectedProduct) && dialogMode == old(dialogMode)
    {
      ghost var before := products;
      products := ListOps.ReplaceById(products, IdOf, updated);
      if forall p :: p in before ==> p.id != updated.id {
        ListOps.ReplaceUnknownId(before, IdOf, updated);
      }
      isDialogOpen := false;
    }
  }
}
