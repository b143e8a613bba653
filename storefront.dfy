/**
 * The storefront's cart and its "last chance" shelf. The cart is a sequence
 * of items keyed by product code; every operation builds a new sequence from
 * the old one. Quantities are integers.
 */
module Storefront {

  /** A catalogue product; a cart item has the same fields, `cantidad` being the quantity in the cart. */
  datatype Product = Product(
    codigo: string, nombre: string, descripcion: string,
    precio: real, cantidad: int, categoria: string)

  type Cart = seq<Product>

  predicate InCart(cart: Cart, codigo: string) {
    exists i :: 0 <= i < |cart| && cart[i].codigo == codigo
  }

  /** No two items share a code. */
  predicate UniqueCodes(cart: Cart) {
    forall i, j :: 0 <= i < j < |cart| ==> cart[i].codigo != cart[j].codigo
  }

  /** The total of the quantities of the items with the given code. */
  function QuantityOf(cart: Cart, codigo: string): int {
    if cart == [] then 0
    else QuantityOf(cart[..|cart| - 1], codigo) + (if cart[|cart| - 1].codigo == codigo then cart[|cart| - 1].cantidad else 0)
  }

  /** The total quantity in the cart. */
  function TotalQuantity(cart: Cart): int {
    if cart == [] then 0 else TotalQuantity(cart[..|cart| - 1]) + cart[|cart| - 1].cantidad
  }

  function Bump(item: Product, codigo: string, quantity: int): Product {
    if item.codigo == codigo then item.(cantidad := item.cantidad + quantity) else item
  }

  function BumpAll(cart: Cart, codigo: string, quantity: int): (r: Cart)
    ensures |r| == |cart|
    ensures forall i :: 0 <= i < |cart| ==> r[i] == Bump(cart[i], codigo, quantity)
  {
    if cart == [] then [] else BumpAll(cart[..|cart| - 1], codigo, quantity) + [Bump(cart[|cart| - 1], codigo, quantity)]
  }

  /**
   * `addToCart`: an item already in the cart has its quantity raised by
   * `quantity`; a new product is appended with `quantity` as its quantity.
   */
  function AddToCart(cart: Cart, product: Product, quantity: int): (r: Cart)
    ensures InCart(cart, product.codigo) ==>
              |r| == |cart| &&
              forall i :: 0 <= i < |cart| ==>
                if cart[i].codigo == product.codigo then r[i] == cart[i].(cantidad := cart[i].cantidad + quantity)
                else r[i] == cart[i]
    ensures !InCart(cart, product.codigo) ==> r == cart + [product.(cantidad := quantity)]
  {
    if InCart(cart, product.codigo) then BumpAll(cart, product.codigo, quantity)
    else cart + [product.(cantidad := quantity)]
  }

  /** `removeFromCart`: every item with the code is dropped, the rest kept in order. */
  function RemoveFromCart(cart: Cart, codigo: string): (r: Cart)
    ensures |r| <= |cart|
    ensures forall x :: x in r <==> x in cart && x.codigo != codigo
  {
    if cart == [] then []
    else
      var last := cart[|cart| - 1];
      RemoveFromCart(cart[..|cart| - 1], codigo) + (if last.codigo == codigo then [] else [last])
  }

  function SetQuantity(item: Product, codigo: string, quantity: int): Product {
    if item.codigo == codigo then item.(cantidad := quantity) else item
  }

  function SetAll(cart: Cart, codigo: string, quantity: int): (r: Cart)
    ensures |r| == |cart|
    ensures forall i :: 0 <= i < |cart| ==> r[i] == SetQuantity(cart[i], codigo, quantity)
  {
    if cart == [] then [] else SetAll(cart[..|cart| - 1], codigo, quantity) + [SetQuantity(cart[|cart| - 1], codigo, quantity)]
  }

  /** `updateCartQuantity`: a quantity of zero or less removes the item; any other sets it. */
  function UpdateCartQuantity(cart: Cart, codigo: string, newQuantity: int): (r: Cart)
    ensures newQuantity <= 0 ==> r == RemoveFromCart(cart, codigo)
    ensures newQuantity > 0 ==>
              |r| == |cart| &&
              forall i :: 0 <= i < |cart| ==>
                r[i].codigo == cart[i].codigo &&
                (cart[i].codigo == codigo ==> r[i] == cart[i].(cantidad := newQuantity)) &&
                (cart[i].codigo != codigo ==> r[i] == cart[i])
  {
    if newQuantity <= 0 then RemoveFromCart(cart, codigo) else SetAll(cart, codigo, newQuantity)
  }

  lemma {:induction false} QuantityOfAbsent(cart: Cart, codigo: string)
    requires !InCart(cart, codigo)
    ensures QuantityOf(cart, codigo) == 0
  {
    if cart != [] {
      var n := |cart| - 1;
      assert !InCart(cart[..n], codigo) by {
        forall i | 0 <= i < n ensures cart[..n][i].codigo != codigo {
          assert cart[..n][i] == cart[i];
        }
      }
      QuantityOfAbsent(cart[..n], codigo);
    }
  }

  lemma {:induction false} QuantityOfAppend(a: Cart, b: Cart, codigo: string)
    ensures QuantityOf(a + b, codigo) == QuantityOf(a, codigo) + QuantityOf(b, codigo)
    decreases |b|
  {
    if b == [] {
      assert a + b == a;
    } else {
      var n := |b| - 1;
      assert (a + b)[..|a + b| - 1] == a + b[..n];
      assert (a + b)[|a + b| - 1] == b[n];
      QuantityOfAppend(a, b[..n], codigo);
    }
  }

  lemma {:induction false} TotalQuantityAppend(a: Cart, b: Cart)
    ensures TotalQuantity(a + b) == TotalQuantity(a) + TotalQuantity(b)
    decreases |b|
  {
    if b == [] {
      assert a + b == a;
    } else {
      var n := |b| - 1;
      assert (a + b)[..|a + b| - 1] == a + b[..n];
      assert (a + b)[|a + b| - 1] == b[n];
      TotalQuantityAppend(a, b[..n]);
    }
  }

  /** In a cart of unique codes, the one item with a code holds all of that code's quantity. */
  lemma {:induction false} BumpAllTotal(cart: Cart, codigo: string, quantity: int)
    requires UniqueCodes(cart)
    ensures TotalQuantity(BumpAll(cart, codigo, quantity)) ==
            TotalQuantity(cart) + (if InCart(cart, codigo) then quantity else 0)
  {
    if cart != [] {
      var n := |cart| - 1;
      var prefix := cart[..n];
      assert UniqueCodes(prefix) by {
        forall i, j | 0 <= i < j < |prefix| ensures prefix[i].codigo != prefix[j].codigo {
          assert prefix[i] == cart[i] && prefix[j] == cart[j];
        }
      }
      BumpAllTotal(prefix, codigo, quantity);
      var r := BumpAll(cart, codigo, quantity);
      assert r[..n] == BumpAll(prefix, codigo, quantity);
      assert InCart(cart, codigo) <==> InCart(prefix, codigo) || cart[n].codigo == codigo by {
        if InCart(cart, codigo) && cart[n].codigo != codigo {
          var i :| 0 <= i < |cart| && cart[i].codigo == codigo;
          assert prefix[i] == cart[i];
        }
        if InCart(prefix, codigo) {
          var i :| 0 <= i < n && prefix[i].codigo == codigo;
          assert cart[i].codigo == codigo;
        }
      }
      if cart[n].codigo == codigo {
        assert !InCart(prefix, codigo) by {
          forall i | 0 <= i < n ensures prefix[i].codigo != codigo {
            assert prefix[i] == cart[i];
          }
        }
      }
    }
  }

  /** Adding `quantity` of a product raises the cart's total quantity by exactly `quantity`. */
  lemma AddToCartTotal(cart: Cart, product: Product, quantity: int)
    requires UniqueCodes(cart)
    ensures TotalQuantity(AddToCart(cart, product, quantity)) == TotalQuantity(cart) + quantity
  {
    if InCart(cart, product.codigo) {
      BumpAllTotal(cart, product.codigo, quantity);
    } else {
      TotalQuantityAppend(cart, [product.(cantidad := quantity)]);
      assert [product.(cantidad := quantity)][..0] == [];
    }
  }

  /** `addToCart` never creates a second item for a code: unique codes stay unique. */
  lemma AddToCartKeepsCodesUnique(cart: Cart, product: Product, quantity: int)
    requires UniqueCodes(cart)
    ensures UniqueCodes(AddToCart(cart, product, quantity))
    ensures InCart(AddToCart(cart, product, quantity), product.codigo)
  {
    var r := AddToCart(cart, product, quantity);
    if !InCart(cart, product.codigo) {
      forall i, j | 0 <= i < j < |r| ensures r[i].codigo != r[j].codigo {
        if j == |cart| {
          assert r[i] == cart[i];
        }
      }
      assert r[|cart|].codigo == product.codigo;
    } else {
      var k :| 0 <= k < |cart| && cart[k].codigo == product.codigo;
      assert r[k].codigo == product.codigo;
    }
  }

  /** Removal commutes with concatenation, so the kept items stay in their relative order. */
  lemma {:induction false} RemoveDistributes(a: Cart, b: Cart, codigo: string)
    ensures RemoveFromCart(a + b, codigo) == RemoveFromCart(a, codigo) + RemoveFromCart(b, codigo)
    decreases |b|
  {
    if b == [] {
      assert a + b == a;
    } else {
      var n := |b| - 1;
      assert (a + b)[..|a + b| - 1] == a + b[..n];
      assert (a + b)[|a + b| - 1] == b[n];
      RemoveDistributes(a, b[..n], codigo);
    }
  }

  /** After a removal no item has the code, and the items of other codes keep their quantities. */
  lemma {:induction false} RemoveFromCartQuantities(cart: Cart, codigo: string, other: string)
    requires other != codigo
    ensures !InCart(RemoveFromCart(cart, codigo), codigo)
    ensures QuantityOf(RemoveFromCart(cart, codigo), other) == QuantityOf(cart, other)
  {
    var r := RemoveFromCart(cart, codigo);
    forall i | 0 <= i < |r| ensures r[i].codigo != codigo {
      assert r[i] in r;
    }
    if cart != [] {
      var n := |cart| - 1;
      RemoveFromCartQuantities(cart[..n], codigo, other);
      var tail := if cart[n].codigo == codigo then [] else [cart[n]];
      QuantityOfAppend(RemoveFromCart(cart[..n], codigo), tail, other);
      if tail != [] { assert tail[..0] == []; }
    }
  }

  /** In a cart of unique codes, the quantity of a code is that of its one item. */
  lemma {:induction false} QuantityOfUnique(cart: Cart, k: nat)
    requires UniqueCodes(cart) && k < |cart|
    ensures QuantityOf(cart, cart[k].codigo) == cart[k].cantidad
  {
    var n := |cart| - 1;
    var prefix := cart[..n];
    assert UniqueCodes(prefix) by {
      forall i, j | 0 <= i < j < |prefix| ensures prefix[i].codigo != prefix[j].codigo {
        assert prefix[i] == cart[i] && prefix[j] == cart[j];
      }
    }
    if k == n {
      assert !InCart(prefix, cart[k].codigo) by {
        forall i | 0 <= i < n ensures prefix[i].codigo != cart[k].codigo {
          assert prefix[i] == cart[i];
        }
      }
      QuantityOfAbsent(prefix, cart[k].codigo);
    } else {
      assert prefix[k] == cart[k];
      QuantityOfUnique(prefix, k);
    }
  }

  /** Setting a positive quantity: in a cart of unique codes, that code then holds exactly that quantity. */
  lemma UpdateSetsQuantity(cart: Cart, codigo: string, newQuantity: int)
    requires UniqueCodes(cart) && InCart(cart, codigo) && newQuantity > 0
    ensures QuantityOf(UpdateCartQuantity(cart, codigo, newQuantity), codigo) == newQuantity
    ensures UniqueCodes(UpdateCartQuantity(cart, codigo, newQuantity))
  {
    var r := UpdateCartQuantity(cart, codigo, newQuantity);
    var k :| 0 <= k < |cart| && cart[k].codigo == codigo;
    assert UniqueCodes(r) by {
      forall i, j | 0 <= i < j < |r| ensures r[i].codigo != r[j].codigo {
        assert r[i].codigo == cart[i].codigo && r[j].codigo == cart[j].codigo;
      }
    }
    QuantityOfUnique(r, k);
  }

  /** Setting the same quantity twice is the same as setting it once. */
  lemma UpdateIsIdempotent(cart: Cart, codigo: string, newQuantity: int)
    ensures UpdateCartQuantity(UpdateCartQuantity(cart, codigo, newQuantity), codigo, newQuantity) ==
            UpdateCartQuantity(cart, codigo, newQuantity)
  {
    var once := UpdateCartQuantity(cart, codigo, newQuantity);
    var twice := UpdateCartQuantity(once, codigo, newQuantity);
    if newQuantity <= 0 {
      RemoveIsIdempotent(cart, codigo);
    } else {
      assert |twice| == |once|;
      forall i | 0 <= i < |once| ensures twice[i] == once[i] {
      }
    }
  }

  lemma {:induction false} RemoveIsIdempotent(cart: Cart, codigo: string)
    ensures RemoveFromCart(RemoveFromCart(cart, codigo), codigo) == RemoveFromCart(cart, codigo)
  {
    if cart != [] {
      var n := |cart| - 1;
      RemoveIsIdempotent(cart[..n], codigo);
      var tail := if cart[n].codigo == codigo then [] else [cart[n]];
      RemoveDistributes(RemoveFromCart(cart[..n], codigo), tail, codigo);
      if tail != [] { assert tail[..0] == []; }
    }
  }

  // ---------------------------------------------------------------------------
  // The "last chance" shelf

  /** `findIndex` by code: the first position with the code, or -1. */
  function FindIndex(products: seq<Product>, codigo: string): (r: int)
    ensures -1 <= r < |products|
    ensures r >= 0 ==> products[r].codigo == codigo
    ensures r >= 0 ==> forall k :: 0 <= k < r ==> products[k].codigo != codigo
    ensures r == -1 ==> forall k :: 0 <= k < |products| ==> products[k].codigo != codigo
  {
    if products == [] then -1
    else if products[0].codigo == codigo then 0
    else
      var rest := FindIndex(products[1..], codigo);
      if rest == -1 then -1 else rest + 1
  }

  /** Few left, but not none. */
  predicate LowStock(p: Product) {
    p.cantidad < 15 && p.cantidad > 0
  }

  /** `p` is the first listing of its code, and low on stock. */
  predicate KeptListing(products: seq<Product>, p: Product) {
    0 <= FindIndex(products, p.codigo) && p == products[FindIndex(products, p.codigo)] && LowStock(p)
  }

  /** The filter's test on the element at position `i` of the whole list. */
  predicate Kept(products: seq<Product>, i: int)
    requires 0 <= i < |products|
  {
    LowStock(products[i]) && FindIndex(products, products[i].codigo) == i
  }

  /** `products.filter(...)` over the first `k` positions of the whole list. */
  function KeptUpTo(products: seq<Product>, k: nat): seq<Product>
    requires k <= |products|
  {
    if k == 0 then []
    else KeptUpTo(products, k - 1) + (if Kept(products, k - 1) then [products[k - 1]] else [])
  }

  /** The `LastChanceCarousel` selection. */
  function LastChance(products: seq<Product>): seq<Product> {
    KeptUpTo(products, |products|)
  }

  /**
   * Each element of the first `k` positions' selection is a kept position,
   * and the positions increase.
   */
  lemma {:induction false} KeptUpToPositions(products: seq<Product>, k: nat)
    requires k <= |products|
    ensures forall a :: 0 <= a < |KeptUpTo(products, k)| ==>
              KeptListing(products, KeptUpTo(products, k)[a]) && FindIndex(products, KeptUpTo(products, k)[a].codigo) < k
    ensures forall a, b :: 0 <= a < b < |KeptUpTo(products, k)| ==>
              FindIndex(products, KeptUpTo(products, k)[a].codigo) < FindIndex(products, KeptUpTo(products, k)[b].codigo)
    ensures forall i :: 0 <= i < k && Kept(products, i) ==> products[i] in KeptUpTo(products, k)
  {
    if k > 0 {
      KeptUpToPositions(products, k - 1);
      var prev := KeptUpTo(products, k - 1);
      var r := KeptUpTo(products, k);
      if Kept(products, k - 1) {
        assert r == prev + [products[k - 1]];
        forall a | 0 <= a < |r| ensures KeptListing(products, r[a]) && FindIndex(products, r[a].codigo) < k {
          if a < |prev| { assert r[a] == prev[a]; } else { assert r[a] == products[k - 1]; }
        }
        forall a, b | 0 <= a < b < |r|
          ensures FindIndex(products, r[a].codigo) < FindIndex(products, r[b].codigo)
        {
          assert r[a] == prev[a];
          if b < |prev| { assert r[b] == prev[b]; } else { assert r[b] == products[k - 1]; }
        }
        forall i | 0 <= i < k && Kept(products, i) ensures products[i] in r {
          if i < k - 1 { assert products[i] in prev; }
        }
      } else {
        assert r == prev;
        forall i | 0 <= i < k && Kept(products, i) ensures products[i] in r {
          assert i < k - 1;
        }
      }
    }
  }

  /**
   * The shelf: only low-stock products, the first listing of each code, in
   * list order. A code is on the shelf exactly when its FIRST listing is low
   * on stock; a later low-stock duplicate of a well-stocked first listing is
   * not shown.
   */
  lemma LastChanceSelection(products: seq<Product>)
    ensures var r := LastChance(products);
            (forall a :: 0 <= a < |r| ==> LowStock(r[a]) && r[a] in products) &&
            UniqueCodes(r) &&
            (forall a, b :: 0 <= a < b < |r| ==> FindIndex(products, r[a].codigo) < FindIndex(products, r[b].codigo))
    ensures forall c :: (exists a :: 0 <= a < |LastChance(products)| && LastChance(products)[a].codigo == c) <==>
                        FindIndex(products, c) >= 0 && LowStock(products[FindIndex(products, c)])
  {
    var r := KeptUpTo(products, |products|);
    assert r == LastChance(products);
    KeptUpToPositions(products, |products|);
    forall a | 0 <= a < |r| ensures LowStock(r[a]) && r[a] in products {
      assert KeptListing(products, r[a]);
    }
    forall a, b | 0 <= a < b < |r| ensures r[a].codigo != r[b].codigo {
      assert FindIndex(products, r[a].codigo) < FindIndex(products, r[b].codigo);
    }
    forall c ensures (exists a :: 0 <= a < |r| && r[a].codigo == c) <==>
                     FindIndex(products, c) >= 0 && LowStock(products[FindIndex(products, c)]) {
      if FindIndex(products, c) >= 0 && LowStock(products[FindIndex(products, c)]) {
        var i := FindIndex(products, c);
        assert Kept(products, i);
        var a :| 0 <= a < |r| && r[a] == products[i];
        assert r[a].codigo == c;
      }
    }
  }
}
