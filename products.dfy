/**
 * The products service: create, list, fetch, merge-update and delete over a
 * product table keyed by auto-increment id.
 */
module Products {
  import opened Common

  /** A catalogue attribute value. */
  datatype Value = Text(text: string) | Number(number: int) | Flag(flag: bool)

  /** The catalogue attributes of a product, by attribute name (a DTO is the same shape). */
  type Fields = map<string, Value>

  datatype Product = Product(id: int, fields: Fields)

  /** `Object.assign(product, dto)`: the dto's attributes overwrite, all others are kept. */
  function Merge(p: Product, dto: Fields): (r: Product)
    ensures r.id == p.id
    ensures r.fields.Keys == p.fields.Keys + dto.Keys
    ensures forall f :: f in dto ==> r.fields[f] == dto[f]
    ensures forall f :: f in p.fields && f !in dto ==> r.fields[f] == p.fields[f]
  {
    p.(fields := p.fields + dto)
  }

  class ProductsService {
    /** The product table. */
    var products: map<int, Product>
    /** The id the table will assign to the next product. */
    var nextId: int

    /** Every stored product sits under its own id, and ids run from 1 below nextId. */
    ghost predicate Valid()
      reads this
    {
      && 1 <= nextId
      && forall id :: id in products ==> 1 <= id < nextId && products[id].id == id
    }

    constructor (initial: map<int, Product>, next: int)
      requires 1 <= next
      requires forall id :: id in initial ==> 1 <= id < next && initial[id].id == id
      ensures Valid() && products == initial && nextId == next
    {
      products := initial;
      nextId := next;
    }

    /** create: stores a new product with a fresh id and the dto's attributes. */
    method Create(dto: Fields) returns (p: Product)
      requires Valid()
      modifies this
      ensures Valid()
      ensures p.id == old(nextId) && p.id !in old(products) && p.fields == dto
      ensures products == old(products)[p.id := p] && nextId == old(nextId) + 1
    {
      p := Product(nextId, dto);
      products := products[p.id := p];
      nextId := nextId + 1;
    }

    /** findAll: every stored product, once each, in id order. */
    method FindAll() returns (r: seq<Product>)
      requires Valid()
      ensures forall p :: p in r <==> p in products.Values
      ensures forall i, j :: 0 <= i < j < |r| ==> r[i].id < r[j].id
    {
      r := [];
      var id := 1;
      while id < nextId
        invariant 1 <= id <= nextId
        invariant forall k :: k in products && k < id ==> products[k] in r
        invariant forall i :: 0 <= i < |r| ==> r[i].id < id && r[i].id in products && products[r[i].id] == r[i]
        invariant forall i, j :: 0 <= i < j < |r| ==> r[i].id < r[j].id
      {
        if id in products {
          r := r + [products[id]];
        }
        id := id + 1;
      }
      forall p | p in products.Values ensures p in r {
        var k :| k in products && products[k] == p;
      }
    }

    /** findOne: the product with this id, or NotFound. */
    method FindOne(id: int) returns (r: Result<Product>)
      requires Valid()
      ensures id in products ==> r == Ok(products[id])
      ensures id !in products ==> r == Err(ProductNotFound)
      ensures r.Ok? ==> r.value.id == id
    {
      if id !in products {
        return Err(ProductNotFound);
      }
      r := Ok(products[id]);
    }

    /** update: merges the dto into the stored product; an unknown id is NotFound and changes nothing. */
    method Update(id: int, dto: Fields) returns (r: Result<Product>)
      requires Valid()
      modifies this`products
      ensures Valid()
      ensures id !in old(products) ==> r == Err(ProductNotFound) && products == old(products)
      ensures id in old(products) ==>
        r == Ok(Merge(old(products)[id], dto)) && products == old(products)[id := r.value]
    {
      var product := FindOne(id);
      if product.Err? {
        return product;
      }
      var merged := Merge(product.value, dto);
      products := products[id := merged];
      r := Ok(merged);
    }

    /** remove: deletes the product; an unknown id is NotFound and changes nothing. */
    method Remove(id: int) returns (r: Result<()>)
      requires Valid()
      modifies this`products
      ensures Valid()
      ensures id !in old(products) ==> r == Err(ProductNotFound) && products == old(products)
      ensures id in old(products) ==> r == Ok(()) && products == old(products) - {id}
    {
      var product := FindOne(id);
      if product.Err? {
        return Err(product.error);
      }
      products := products - {product.value.id};
      r := Ok(());
    }
  }
}
